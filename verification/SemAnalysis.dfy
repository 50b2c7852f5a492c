/** Semantic analysis as it runs: a stack of scopes that is pushed and popped, a loop level that is counted up and
    down, and five passes over the definitions. */
module SemAnalysis {
  import opened Ast
  import opened Raw
  import opened Sem

  class SemAnalysisCtx {
    /** The scope stack, the global scope first. */
    var scopes: seq<Scope>
    var loopLevel: nat
    var aliases: Aliases

    constructor ()
      ensures scopes == [] && loopLevel == 0 && aliases == map[]
    {
      scopes, loopLevel, aliases := [], 0, map[];
    }

    /** What can be seen from the top of the stack. */
    ghost function Here(): Names
      requires scopes != []
      reads this
    {
      Seen(scopes, aliases)
    }

    method PushScope()
      modifies this`scopes
      ensures scopes == old(scopes) + [[]]
    {
      scopes := scopes + [[]];
    }

    method PopScope()
      requires scopes != []
      modifies this`scopes
      ensures scopes == old(scopes)[..|old(scopes)| - 1]
    {
      scopes := scopes[..|scopes| - 1];
    }

    method FindInScope(s: Scope, x: string) returns (r: Option<Kind>)
      ensures r == Find(s, x)
    {
      var i := 0;
      while i < |s|
        invariant 0 <= i <= |s|
        invariant Find(s, x) == Find(s[i..], x)
      {
        if s[i].name == x {
          return Some(s[i].kind);
        }
        assert s[i..][1..] == s[i + 1..];
        i := i + 1;
      }
      r := None;
    }

    /** Searches the `n`-th scope from the bottom and, if `rec` is set, those below it and the built-in one. */
    method FindSymbolInScope(n: nat, x: string, rec: bool) returns (r: Option<Kind>)
      requires n <= |scopes|
      ensures n == 0 ==> r == if ScalarTy(x).Some? then Some(KType) else None
      ensures n > 0 && !rec ==> r == Find(scopes[n - 1], x)
      ensures n > 0 && rec ==> r == Lookup(Seen(scopes[..n], aliases), x)
      decreases n
    {
      if n == 0 {
        return if ScalarTy(x).Some? then Some(KType) else None;
      }
      r := FindInScope(scopes[n - 1], x);
      ghost var c := Seen(scopes[..n], aliases);
      if n > 1 {
        assert c.locals[n - 2] == scopes[n - 1];
        assert c.(locals := c.locals[..n - 2]) == Seen(scopes[..n - 1], aliases);
      } else {
        FindInTable(scopes[0], x);
      }
      if r.None? && rec {
        r := FindSymbolInScope(n - 1, x, rec);
      }
    }

    method LookUp(x: string) returns (r: Option<Kind>)
      requires scopes != []
      ensures r == Lookup(Here(), x)
    {
      r := FindSymbolInScope(|scopes|, x, true);
      assert scopes[..|scopes|] == scopes;
    }

    method FindTypeByName(x: string) returns (r: Option<TRef>)
      requires scopes != []
      ensures r == FindType(Here(), x)
    {
      var k := LookUp(x);
      r := if k == Some(KType) then Some(TName(x)) else None;
    }

    /** Refuses a name that is in the current scope or is reserved. */
    method TryRegisterSymbol(s: Symbol) returns (ok: bool)
      requires scopes != []
      modifies this`scopes
      ensures var last := |old(scopes)| - 1;
              var r := TryAdd(old(scopes)[last], s);
              ok == r.Some? && scopes == if ok then old(scopes)[last := r.value] else old(scopes)
    {
      var k := FindSymbolInScope(|scopes|, s.name, false);
      if k.Some? || Reserved(s.name) {
        return false;
      }
      scopes := scopes[|scopes| - 1 := scopes[|scopes| - 1] + [s]];
      ok := true;
    }

    // Expressions: nothing changes

    method ResolveVariable(x: string) returns (r: Option<VarRef>)
      requires scopes != []
      ensures r == ResolveVar(Here(), x)
    {
      var k := LookUp(x);
      match k
      case Some(KVar(t, node)) => r := Some(VarRef(t, VarDefinition(node)));
      case Some(KParam(t, node)) => r := Some(VarRef(t, ParamDefinition(node)));
      case _ => r := None;
    }

    method ResolveExpression(e: RExp) returns (r: Option<Exp>)
      requires scopes != []
      ensures r == ResolveExp(Here(), e)
      decreases e, 1
    {
      hide Lookup;
      match e
      case RInt(n) => r := Some(IntLit(n, IntLitType(n)));
      case RChar(k) => r := Some(CharLit(k));
      case RVar(x) =>
        var v := ResolveVariable(x);
        if v.None? {
          return None;
        }
        r := Some(Var(x, Under(aliases, v.value.t), v.value.def));
      case RUnary(op, a) =>
        var ra := ResolveExpression(a);
        if ra.None? {
          return None;
        }
        var t := UnopType(TyOf(ra.value));
        if t.None? {
          return None;
        }
        r := Some(Unary(op, ra.value, t.value));
      case RBinary(op, a, b) =>
        var ra := ResolveExpression(a);
        if ra.None? {
          return None;
        }
        var rb := ResolveExpression(b);
        if rb.None? {
          return None;
        }
        var t := BinopType(TyOf(ra.value), TyOf(rb.value), op);
        if t.None? {
          return None;
        }
        r := Some(Binary(op, ra.value, rb.value, t.value));
      case RCast(a, tname) =>
        var ra := ResolveExpression(a);
        if ra.None? {
          return None;
        }
        var t := FindTypeByName(tname);
        if t.None? || !Castable(Under(aliases, t.value), TyOf(ra.value)) {
          return None;
        }
        r := Some(Cast(ra.value, tname, Under(aliases, t.value)));
      case RConditional(c, a, b) =>
        var rc := ResolveCondition(c);
        if rc.None? {
          return None;
        }
        var ra := ResolveExpression(a);
        if ra.None? {
          return None;
        }
        var rb := ResolveExpression(b);
        if rb.None? {
          return None;
        }
        var t := ConditionalType(TyOf(ra.value), TyOf(rb.value));
        if t.None? {
          return None;
        }
        r := Some(Conditional(rc.value, ra.value, rb.value, t.value));
      case RCall(f, args) =>
        var rc := ResolveFunctionCall(f, args);
        if rc.None? {
          return None;
        }
        r := Some(Call(rc.value.0, rc.value.1));
    }

    /** The number of arguments is checked before any of them, and each is checked before the next. */
    method ResolveFunctionCall(f: string, args: seq<RExp>) returns (r: Option<(Sig, seq<Exp>)>)
      requires scopes != []
      ensures r == ResolveCall(Here(), f, args)
      decreases args, 1
    {
      hide Lookup, ResolveExp;
      var k := LookUp(f);
      if k.None? || !k.value.KFunc? || |args| != |k.value.params| {
        return None;
      }
      var ts := Unders(aliases, k.value.params);
      var es := [];
      var i := 0;
      assert args[0..] == args && ts[0..] == ts;
      NothingBefore(ResolveArgs(Here(), args, ts));
      while i < |args|
        invariant 0 <= i <= |args|
        invariant var rest := ResolveArgs(Here(), args[i..], ts[i..]);
                  ResolveArgs(Here(), args, ts) == if rest.Some? then Some(es + rest.value) else None
      {
        assert args[i..][1..] == args[i + 1..] && ts[i..][1..] == ts[i + 1..];
        var e := ResolveExpression(args[i]);
        if e.None? || !Assignable(ts[i], TyOf(e.value)) {
          return None;
        }
        ghost var rest := ResolveArgs(Here(), args[i + 1..], ts[i + 1..]);
        Before(es, [e.value], rest);
        es := es + [e.value];
        i := i + 1;
      }
      assert args[i..] == [] && es + [] == es;
      r := Some((Sig(f, ts, Under(aliases, k.value.ret)), es));
    }

    method ResolveCondition(c: RCond) returns (r: Option<Cond>)
      requires scopes != []
      ensures r == ResolveCond(Here(), c)
      decreases c, 1
    {
      hide ResolveExp;
      match c
      case RBinCond(neg, op, a, b) =>
        var l := ResolveCondition(a);
        if l.None? {
          return None;
        }
        var rr := ResolveCondition(b);
        if rr.None? {
          return None;
        }
        r := Some(BinCond(neg, op, l.value, rr.value));
      case RCompar(neg, op, a, b) =>
        var l := ResolveExpression(a);
        if l.None? {
          return None;
        }
        var rr := ResolveExpression(b);
        if rr.None? || !CanCompare(TyOf(l.value), TyOf(rr.value), op) {
          return None;
        }
        r := Some(Compar(neg, op, l.value, rr.value));
    }

    // Statements

    /** A variable of unknown type is registered with the error type, and refused. */
    method ResolveVarDefinition(x: string, tname: string, node: Node) returns (r: Option<TRef>)
      requires scopes != []
      modifies this`scopes
      ensures var t := FindType(old(Here()), tname);
              var last := |old(scopes)| - 1;
              var s := TryAdd(old(scopes)[last], Symbol(x, KVar(TypeOr(t), node)));
              && scopes == (if s.Some? then old(scopes)[last := s.value] else old(scopes))
              && r == if s.Some? then t else None
    {
      var t := FindTypeByName(tname);
      var ok := TryRegisterSymbol(Symbol(x, KVar(TypeOr(t), node)));
      r := if ok then t else None;
    }

    /** Whatever the verdict, no scope is left behind and the loop level is as before; only a definition changes the
        current scope. `m1` and `m2` are the marks of the blocks of an `if` or of a nested block. */
    method ResolveStatement(s: RStmt, ret: TRef) returns (r: Option<Stmt>, m1: bool, m2: bool)
      requires |scopes| > 1
      modifies this
      ensures loopLevel == old(loopLevel) && aliases == old(aliases)
      ensures var res := ResolveStmt(old(Here()), ret, old(loopLevel), s);
              r == res.stmt && scopes == [old(scopes)[0]] + res.locals
      ensures s.RBlock? ==> m1 == RExits(s.body)
      ensures s.RIf? ==> m1 == RExits(s.thn)
      ensures s.RIfElse? ==> m1 == RExits(s.thn) && m2 == RExits(s.els)
      decreases s, 0
    {
      hide ResolveExp, ResolveCall, ResolveCond, ResolveBlock, ResolveInner, RExits, Lookup, FindType, TryAdd;
      m1, m2 := false, false;
      assert scopes == [scopes[0]] + scopes[1..];
      match s
      case RVarDef(x, tname, node) =>
        var t := ResolveVarDefinition(x, tname, node);
        r := if t.Some? then Some(VarDef(x, tname, Under(aliases, t.value), node)) else None;
      case RIf(c, thn) =>
        var rc := ResolveCondition(c);
        var rt;
        rt, m1 := ResolveInnerBlock(thn, ret);
        r := if rc.Some? && rt.Some? then Some(If(rc.value, rt.value)) else None;
      case RIfElse(c, thn, els) =>
        var rc := ResolveCondition(c);
        var rt, re;
        rt, m1 := ResolveInnerBlock(thn, ret);
        re, m2 := ResolveInnerBlock(els, ret);
        r := if rc.Some? && rt.Some? && re.Some? then Some(IfElse(rc.value, rt.value, re.value)) else None;
      case RWhile(_, _) =>
        r := ResolveWhile(s, ret);
      case RAssign(x, e) =>
        var re := ResolveExpression(e);
        if re.None? {
          return None, m1, m2;
        }
        var v := ResolveVariable(x);
        if v.None? || !Assignable(Under(aliases, v.value.t), TyOf(re.value)) {
          return None, m1, m2;
        }
        r := Some(Assign(x, Under(aliases, v.value.t), v.value.def, re.value));
      case RReturn =>
        r := if ret == VOID then Some(Return) else None;
      case RReturnValue(e) =>
        var re := ResolveExpression(e);
        if re.None? || !Assignable(Under(aliases, ret), TyOf(re.value)) {
          return None, m1, m2;
        }
        r := Some(ReturnValue(re.value));
      case RBreak =>
        r := if loopLevel > 0 then Some(Break) else None;
      case RContinue =>
        r := if loopLevel > 0 then Some(Continue) else None;
      case RCallStmt(f, args) =>
        var rc := ResolveFunctionCall(f, args);
        r := if rc.Some? then Some(CallStmt(rc.value.0, rc.value.1)) else None;
      case RBlock(b) =>
        var rb;
        rb, m1 := ResolveInnerBlock(b, ret);
        r := if rb.Some? then Some(Block(rb.value)) else None;
      case REcho(e) =>
        var re := ResolveExpression(e);
        r := if re.Some? then Some(Echo(re.value)) else None;
    }

    /** The condition is resolved in the scope of the body, and the body only if the condition is accepted. */
    method ResolveWhile(s: RStmt, ret: TRef) returns (r: Option<Stmt>)
      requires s.RWhile? && |scopes| > 1
      modifies this
      ensures loopLevel == old(loopLevel) && aliases == old(aliases) && scopes == old(scopes)
      ensures r == ResolveStmt(old(Here()), ret, old(loopLevel), s).stmt
      decreases s.body, 3
    {
      hide ResolveCond, ResolveBlock, RExits, ResolveStmt, TableOf;
      ghost var c := Here();
      WhileResolved(c, ret, loopLevel, s);
      loopLevel := loopLevel + 1;
      PushScope();
      Pushed(old(scopes), aliases);
      var rc := ResolveCondition(s.c);
      EmptyScopeCond(c, s.c);
      r := None;
      if rc.Some? {
        OuterScopesKept(Here(), ret, loopLevel, s.body);
        var rb, m := ResolveStatements(s.body, ret);
        if rb.Some? {
          r := Some(While(rc.value, rb.value));
        }
      }
      PopScope();
      loopLevel := loopLevel - 1;
    }

    method ResolveInnerBlock(b: seq<RStmt>, ret: TRef) returns (r: Option<seq<Stmt>>, mark: bool)
      requires |scopes| > 1
      modifies this
      ensures loopLevel == old(loopLevel) && aliases == old(aliases) && scopes == old(scopes)
      ensures r == ResolveInner(old(Here()), ret, old(loopLevel), b) && mark == RExits(b)
      decreases b, 2
    {
      hide ResolveBlock, RExits;
      PushScope();
      Pushed(old(scopes), aliases);
      OuterScopesKept(Here(), ret, loopLevel, b);
      r, mark := ResolveStatements(b, ret);
      PopScope();
    }

    /** The statements of a block, in the current scope. */
    method ResolveStatements(b: seq<RStmt>, ret: TRef) returns (r: Option<seq<Stmt>>, mark: bool)
      requires |scopes| > 1
      modifies this
      ensures loopLevel == old(loopLevel) && aliases == old(aliases)
      ensures var res := ResolveBlock(old(Here()), ret, old(loopLevel), b);
              r == res.stmts && scopes == [old(scopes)[0]] + res.locals
      ensures mark == RExits(b)
      decreases b, 1
    {
      hide ResolveStmt, Lookup;
      r, mark := Some([]), false;
      ghost var res := ResolveBlock(Here(), ret, loopLevel, b);
      var i := 0;
      assert b[0..] == b;
      NothingBefore(res.stmts);
      while i < |b|
        invariant 0 <= i <= |b|
        invariant loopLevel == old(loopLevel) && aliases == old(aliases)
        invariant |scopes| == |old(scopes)| && scopes[0] == old(scopes)[0]
        invariant var rest := ResolveBlock(Here(), ret, loopLevel, b[i..]);
                  && res.locals == rest.locals
                  && res.stmts == if r.Some? && rest.stmts.Some? then Some(r.value + rest.stmts.value) else None
        invariant RExits(b) == (mark || RExits(b[i..]))
      {
        assert b[i..][1..] == b[i + 1..];
        ghost var c := Here();
        var s, m1, m2 := ResolveStatement(b[i], ret);
        ghost var after := ResolveStmt(c, ret, loopLevel, b[i]).locals;
        ghost var rest := ResolveBlock(c.(locals := after), ret, loopLevel, b[i + 1..]);
        assert Here().locals == after;
        if r.Some? && s.Some? {
          Before(r.value, [s.value], rest.stmts);
          r := Some(r.value + [s.value]);
        } else {
          r := None;
        }
        if !mark {
          match b[i]
          case RBlock(_) => mark := m1;
          case RIfElse(_, _, _) => mark := m1 && m2;
          case RBreak => mark := true;
          case RContinue => mark := true;
          case RReturn => mark := true;
          case RReturnValue(_) => mark := true;
          case _ =>
        }
        i := i + 1;
      }
      assert b[i..] == [] && scopes == [scopes[0]] + scopes[1..];
      assert r.Some? ==> r.value + [] == r.value;
    }

    // Definitions

    /** A clash of parameters takes the function out of the scope again. */
    method ResolveFunctionDeclaration(name: string, ps: seq<Param>, ret: string) returns (ok: bool, d: Decl)
      requires |scopes| == 1 && aliases == map[]
      modifies this`scopes
      ensures var r := DeclareFunc(old(scopes)[0], name, ps, ret); scopes == [r.scope] && ok == r.ok && d == r.decl
    {
      hide Lookup, DeclareParams, TableOf, FindType, Find;
      ghost var g := scopes[0];
      ok := TryRegisterSymbol(Symbol(name, KFunc([], TErr)));
      if !ok {
        return false, Decl([], TErr);
      }
      var index := |scopes[0]| - 1;
      assert scopes[0][..index] == g && scopes[1..] == [];
      var t := FindTypeByName(ret);
      PushScope();
      var params := ResolveParameters(ps);
      PopScope();
      d := Decl(params.types, TypeOr(t));
      if params.clash {
        scopes := [scopes[0][..index] + scopes[0][index + 1..]];
        assert scopes[0] == g;
        return false, d;
      }
      // the symbol refers to the definition, whose types are known now
      scopes := [scopes[0][index := Symbol(name, KFunc(d.params, d.ret))]];
      assert scopes[0] == g + [Symbol(name, KFunc(d.params, d.ret))];
      ok := t.Some? && params.ok;
    }

    /** Each parameter is registered at the top of the stack, up to the first clash. */
    method ResolveParameters(ps: seq<Param>) returns (r: ParamsRes)
      requires |scopes| == 2 && aliases == map[]
      modifies this`scopes
      ensures |scopes| == 2 && scopes[0] == old(scopes)[0]
      ensures r == DeclareParams(old(scopes)[0], ps, old(scopes)[1])
    {
      hide TableOf, FindType, TryAdd, DeclareParams;
      ghost var g, all := scopes[0], DeclareParams(scopes[0], ps, scopes[1]);
      var types, ok := [], true;
      var i := 0;
      assert ps[0..] == ps && [] + all.types == all.types;
      while i < |ps|
        invariant 0 <= i <= |ps| && |scopes| == 2 && scopes[0] == g
        invariant var rest := DeclareParams(g, ps[i..], scopes[1]);
                  && all.types == types + rest.types && all.clash == rest.clash && all.ok == (ok && rest.ok)
      {
        assert scopes[1..] == [scopes[1]];
        NextParameter(g, ps, i, scopes[1]);
        var t := FindTypeByName(ps[i].tname);
        var added := TryRegisterSymbol(Symbol(ps[i].name, KParam(TypeOr(t), ps[i].node)));
        if !added {
          return ParamsRes(types + [TypeOr(t)], false, true);
        }
        ghost var rest := DeclareParams(g, ps[i + 1..], scopes[1]);
        assert types + ([TypeOr(t)] + rest.types) == types + [TypeOr(t)] + rest.types;
        types, ok := types + [TypeOr(t)], ok && t.Some?;
        i := i + 1;
      }
      assert ps[i..] == [] && types + [] == types;
      NoParameters(g, scopes[1]);
      r := ParamsRes(types, ok, false);
    }

    /** The parameters are added without a check; the stack is as before, whatever the verdict. */
    method ResolveFunctionImpl(f: Def, d: Decl) returns (r: Option<Func>)
      requires f.FuncDef? && f.body.Some? && |scopes| == 1 && loopLevel == 0
      modifies this
      ensures scopes == old(scopes) && loopLevel == 0 && aliases == old(aliases)
      ensures r == ResolveImpl(TableOf(scopes[0]), aliases, f, d)
    {
      hide ResolveBlock, RExits;
      PushScope();
      var i := 0;
      while i < |f.params|
        invariant 0 <= i <= |f.params| && |scopes| == 2 && scopes[0] == old(scopes)[0]
        invariant scopes[1] == ParamScope(f.params, d.params)[..i]
        invariant loopLevel == 0 && aliases == old(aliases)
      {
        var s := Symbol(f.params[i].name, KParam(if i < |d.params| then d.params[i] else TErr, f.params[i].node));
        scopes := [scopes[0], scopes[1] + [s]];
        i := i + 1;
      }
      assert scopes[1] == ParamScope(f.params, d.params);
      assert scopes[1..] == [scopes[1]];
      var b, mark := ResolveStatements(f.body.value, d.ret);
      PopScope();
      assert scopes == old(scopes);
      if b.None? || (d.ret != VOID && !mark) {
        return None;
      }
      r := Some(FuncOf(aliases, f, d, b.value));
    }

    method DeclareAllTypes(ds: seq<Def>) returns (ok: bool)
      requires |scopes| == 1
      modifies this`scopes
      ensures var r := DeclareTypes(old(scopes)[0], ds); scopes == [r.scope] && ok == r.ok
    {
      hide TryAdd;
      ok := true;
      ghost var all := DeclareTypes(scopes[0], ds);
      var i := 0;
      assert ds[0..] == ds;
      while i < |ds|
        invariant 0 <= i <= |ds| && |scopes| == 1
        invariant var rest := DeclareTypes(scopes[0], ds[i..]);
                  all.scope == rest.scope && all.ok == (ok && rest.ok)
      {
        assert ds[i..][1..] == ds[i + 1..];
        if ds[i].TypeDef? {
          var added := TryRegisterSymbol(Symbol(ds[i].name, KType));
          ok := ok && added;
        }
        i := i + 1;
      }
    }

    method DeclareAllFunctions(ds: seq<Def>) returns (ok: bool, decls: seq<Decl>)
      requires |scopes| == 1 && aliases == map[]
      modifies this`scopes
      ensures var r := DeclareFuncs(old(scopes)[0], ds); scopes == [r.scope] && ok == r.ok && decls == r.decls
    {
      hide DeclareFunc;
      ok, decls := true, [];
      ghost var all := DeclareFuncs(scopes[0], ds);
      var i := 0;
      assert ds[0..] == ds && [] + all.decls == all.decls;
      while i < |ds|
        invariant 0 <= i <= |ds| && |scopes| == 1
        invariant var rest := DeclareFuncs(scopes[0], ds[i..]);
                  all.scope == rest.scope && all.ok == (ok && rest.ok) && all.decls == decls + rest.decls
      {
        assert ds[i..][1..] == ds[i + 1..];
        if ds[i].FuncDef? {
          var added, d := ResolveFunctionDeclaration(ds[i].name, ds[i].params, ds[i].ret);
          ghost var rest := DeclareFuncs(scopes[0], ds[i + 1..]);
          assert decls + ([d] + rest.decls) == decls + [d] + rest.decls;
          ok, decls := ok && added, decls + [d];
        }
        i := i + 1;
      }
      assert ds[i..] == [] && decls + [] == decls;
    }

    method DeclareAllVariables(ds: seq<Def>) returns (ok: bool)
      requires |scopes| == 1 && aliases == map[]
      modifies this`scopes
      ensures var r := DeclareVars(old(scopes)[0], ds); scopes == [r.scope] && ok == r.ok
    {
      hide TryAdd, FindType;
      ok := true;
      ghost var all := DeclareVars(scopes[0], ds);
      var i := 0;
      assert ds[0..] == ds;
      while i < |ds|
        invariant 0 <= i <= |ds| && |scopes| == 1
        invariant var rest := DeclareVars(scopes[0], ds[i..]);
                  all.scope == rest.scope && all.ok == (ok && rest.ok)
      {
        assert ds[i..][1..] == ds[i + 1..];
        if ds[i].GlobalDef? {
          assert scopes[1..] == [];
          var t := ResolveVarDefinition(ds[i].name, ds[i].tname, ds[i].node);
          ok := ok && t.Some?;
        }
        i := i + 1;
      }
    }

    method DescribeAllTypes(ds: seq<Def>) returns (ok: bool)
      requires |scopes| == 1
      modifies this`aliases
      ensures var r := DescribeTypes(scopes[0], old(aliases), ds); aliases == r.aliases && ok == r.ok
    {
      hide FindType;
      ok := true;
      ghost var all := DescribeTypes(scopes[0], aliases, ds);
      var i := 0;
      assert ds[0..] == ds;
      while i < |ds|
        invariant 0 <= i <= |ds|
        invariant var rest := DescribeTypes(scopes[0], aliases, ds[i..]);
                  all.aliases == rest.aliases && all.ok == (ok && rest.ok)
      {
        assert ds[i..][1..] == ds[i + 1..];
        if ds[i].TypeDef? {
          assert scopes[1..] == [];
          TypesWithoutAliases(scopes[0], aliases, ds[i].aliased);
          var t := FindTypeByName(ds[i].aliased);
          ok := ok && t.Some?;
          aliases := aliases[ds[i].name := TypeOr(t)];
        }
        i := i + 1;
      }
    }

    method ResolveAllBodies(ds: seq<Def>, decls: seq<Decl>) returns (ok: bool, p: Program)
      requires |scopes| == 1 && loopLevel == 0
      modifies this
      ensures scopes == old(scopes) && loopLevel == 0 && aliases == old(aliases)
      ensures var r := ResolveImpls(TableOf(scopes[0]), aliases, map[], ds, decls); p == r.program && ok == r.ok
    {
      hide ResolveImpl, TableOf;
      ok, p := true, map[];
      ghost var t := TableOf(scopes[0]);
      ghost var all := ResolveImpls(t, aliases, map[], ds, decls);
      var i, j := 0, 0;
      assert ds[0..] == ds && decls[0..] == decls;
      while i < |ds|
        invariant 0 <= i <= |ds| && 0 <= j <= |decls|
        invariant scopes == old(scopes) && loopLevel == 0 && aliases == old(aliases)
        invariant var rest := ResolveImpls(t, aliases, p, ds[i..], decls[j..]);
                  all.program == rest.program && all.ok == (ok && rest.ok)
      {
        assert ds[i..][1..] == ds[i + 1..];
        if ds[i].FuncDef? && j < |decls| {
          assert decls[j..][1..] == decls[j + 1..];
          if ds[i].body.Some? {
            var f := ResolveFunctionImpl(ds[i], decls[j]);
            if f.Some? {
              p := p[ds[i].name := f.value];
            }
            ok := ok && f.Some?;
          }
          j := j + 1;
        }
        i := i + 1;
      }
    }

    /** The five phases, one after the other, whether or not one fails. */
    method AnalyseDefinitions(ds: seq<Def>) returns (r: Option<Analysis>)
      requires scopes == [] && loopLevel == 0 && aliases == map[]
      modifies this
      ensures r == Analyse(ds)
    {
      hide DeclareTypes, DeclareFuncs, DeclareVars, DescribeTypes, ResolveImpls, TableOf;
      PushScope();
      var ok1 := DeclareAllTypes(ds);
      var ok2, decls := DeclareAllFunctions(ds);
      var ok3 := DeclareAllVariables(ds);
      var ok4 := DescribeAllTypes(ds);
      var ok5, p := ResolveAllBodies(ds, decls);
      r := if ok1 && ok2 && ok3 && ok4 && ok5 then Some(Analysis(TableOf(scopes[0]), aliases, p)) else None;
    }
  }

  /** A stack of scopes as names that can be seen. */
  function Seen(scopes: seq<Scope>, al: Aliases): Names
    requires scopes != []
  {
    Names(TableOf(scopes[0]), al, scopes[1..])
  }

  lemma Pushed(scopes: seq<Scope>, al: Aliases)
    requires scopes != []
    ensures Seen(scopes + [[]], al) == Seen(scopes, al).(locals := Seen(scopes, al).locals + [[]])
    ensures (scopes + [[]])[..|scopes|] == scopes
  {
    assert (scopes + [[]])[1..] == scopes[1..] + [[]];
  }

  lemma {:induction false} FindInTable(g: Scope, x: string)
    ensures Find(g, x) == if x in TableOf(g) then Some(TableOf(g)[x]) else None
  {
    if g != [] {
      FindInTable(g[1..], x);
    }
  }

  lemma NextParameter(g: Scope, ps: seq<Param>, i: nat, scope: Scope)
    requires i < |ps|
    ensures var t := FindType(Names(TableOf(g), map[], [scope]), ps[i].tname);
            var s := TryAdd(scope, Symbol(ps[i].name, KParam(TypeOr(t), ps[i].node)));
            DeclareParams(g, ps[i..], scope)
            == if s.None? then ParamsRes([TypeOr(t)], false, true)
               else
                 var r := DeclareParams(g, ps[i + 1..], s.value);
                 ParamsRes([TypeOr(t)] + r.types, t.Some? && r.ok, r.clash)
  {
    hide TableOf, FindType, TryAdd;
    assert ps[i..][1..] == ps[i + 1..];
  }

  lemma NoParameters(g: Scope, scope: Scope)
    ensures DeclareParams(g, [], scope) == ParamsRes([], true, false)
  {
  }

  lemma WhileResolved(c: Names, ret: TRef, level: nat, s: RStmt)
    requires c.locals != [] && s.RWhile?
    ensures var rc, rb := ResolveCond(c, s.c), ResolveInner(c, ret, level + 1, s.body);
            ResolveStmt(c, ret, level, s).stmt
            == if rc.Some? && rb.Some? then Some(While(rc.value, rb.value)) else None
  {
    hide ResolveCond, ResolveInner;
  }

  lemma TypesWithoutAliases(g: Scope, al: Aliases, x: string)
    ensures FindType(Names(TableOf(g), al, []), x) == FindType(Globals(g), x)
  {
  }

  lemma NothingBefore<T>(r: Option<seq<T>>)
    ensures r == if r.Some? then Some([] + r.value) else None
  {
    assert r.Some? ==> [] + r.value == r.value;
  }

  lemma Before<T>(a: seq<T>, b: seq<T>, r: Option<seq<T>>)
    ensures r.Some? ==> a + (b + r.value) == (a + b) + r.value
  {
    assert r.Some? ==> a + (b + r.value) == (a + b) + r.value;
  }

  // Scope discipline

  /** A block changes no scope but the current one, whether it is accepted or not. */
  lemma {:induction false} OuterScopesKept(c: Names, ret: TRef, level: nat, b: seq<RStmt>)
    requires c.locals != []
    ensures var n := |c.locals| - 1; ResolveBlock(c, ret, level, b).locals[..n] == c.locals[..n]
    decreases |b|
  {
    hide ResolveStmt;
    if b != [] {
      OuterScopesKeptBy(c, ret, level, b[0]);
      OuterScopesKept(c.(locals := ResolveStmt(c, ret, level, b[0]).locals), ret, level, b[1..]);
    }
  }

  lemma OuterScopesKeptBy(c: Names, ret: TRef, level: nat, s: RStmt)
    requires c.locals != []
    ensures var n := |c.locals| - 1; ResolveStmt(c, ret, level, s).locals[..n] == c.locals[..n]
    ensures !s.RVarDef? ==> ResolveStmt(c, ret, level, s).locals == c.locals
  {
    hide ResolveExp, ResolveCond, ResolveCall, ResolveInner;
  }

  // A scope without symbols hides nothing

  function Inside(c: Names): Names {
    c.(locals := c.locals + [[]])
  }

  lemma EmptyScopeLookup(c: Names, x: string)
    ensures Lookup(Inside(c), x) == Lookup(c, x)
  {
    assert Inside(c).locals[..|c.locals|] == c.locals;
  }

  lemma {:induction false} EmptyScopeExp(c: Names, e: RExp)
    ensures ResolveExp(Inside(c), e) == ResolveExp(c, e)
    decreases e, 1
  {
    hide Lookup, Inside;
    assert Inside(c).aliases == c.aliases by { InsideAliases(c); }
    match e
    case RInt(_) =>
    case RChar(_) =>
    case RVar(x) => EmptyScopeLookup(c, x);
    case RUnary(_, a) => EmptyScopeExp(c, a);
    case RBinary(_, a, b) =>
      EmptyScopeExp(c, a);
      EmptyScopeExp(c, b);
    case RCast(a, t) =>
      EmptyScopeExp(c, a);
      EmptyScopeLookup(c, t);
    case RConditional(cond, a, b) =>
      EmptyScopeCond(c, cond);
      EmptyScopeExp(c, a);
      EmptyScopeExp(c, b);
    case RCall(f, args) =>
      EmptyScopeLookup(c, f);
      if Lookup(c, f).Some? && Lookup(c, f).value.KFunc? && |args| == |Lookup(c, f).value.params| {
        EmptyScopeArgs(c, args, Unders(c.aliases, Lookup(c, f).value.params));
      }
  }

  lemma InsideAliases(c: Names)
    ensures Inside(c).aliases == c.aliases
  {
  }

  lemma {:induction false} EmptyScopeArgs(c: Names, args: seq<RExp>, ts: seq<Ty>)
    requires |args| == |ts|
    ensures ResolveArgs(Inside(c), args, ts) == ResolveArgs(c, args, ts)
    decreases args, 0
  {
    hide Lookup, Inside;
    if args != [] {
      EmptyScopeExp(c, args[0]);
      EmptyScopeArgs(c, args[1..], ts[1..]);
    }
  }

  lemma {:induction false} EmptyScopeCond(c: Names, cond: RCond)
    ensures ResolveCond(Inside(c), cond) == ResolveCond(c, cond)
    decreases cond, 1
  {
    hide Lookup, Inside;
    match cond
    case RBinCond(_, _, a, b) =>
      EmptyScopeCond(c, a);
      EmptyScopeCond(c, b);
    case RCompar(_, _, a, b) =>
      EmptyScopeExp(c, a);
      EmptyScopeExp(c, b);
  }
}
