/** Scope discipline: which scopes hold a name twice or a reserved one, over a whole run of analysis. */
module ScopeDiscipline {
  import opened Ast
  import opened Raw
  import opened Sem
  import opened Acceptance
  import opened SemAnalysis

  // No scope holds a name twice, or a reserved one

  predicate ScopesOk(locals: seq<Scope>) {
    forall i :: 0 <= i < |locals| ==> ScopeOk(locals[i])
  }

  lemma VarDefKeepsScopes(c: Names, x: string, tname: string, node: Node)
    requires c.locals != [] && ScopesOk(c.locals)
    ensures ScopesOk(ResolveVarDef(c, x, tname, node).locals)
  {
    hide ScopeOk, TryAdd;
    var last := |c.locals| - 1;
    var s := Symbol(x, KVar(TypeOr(FindType(c, tname)), node));
    TryAddIs(c.locals[last], s);
    if TryAdd(c.locals[last], s).Some? {
      assert TryAdd(c.locals[last], s).value == c.locals[last] + [s] by { AddedAtEnd(c.locals[last], s); }
    }
  }

  lemma AddedAtEnd(s: Scope, sym: Symbol)
    requires TryAdd(s, sym).Some?
    ensures TryAdd(s, sym).value == s + [sym]
  {
  }

  lemma {:induction false} BlockKeepsScopes(c: Names, ret: TRef, level: nat, b: seq<RStmt>)
    requires c.locals != [] && ScopesOk(c.locals)
    ensures ScopesOk(ResolveBlock(c, ret, level, b).locals)
    decreases |b|
  {
    hide ResolveStmt, ScopesOk;
    if b != [] {
      StmtKeepsScopes(c, ret, level, b[0]);
      BlockKeepsScopes(c.(locals := ResolveStmt(c, ret, level, b[0]).locals), ret, level, b[1..]);
    }
  }

  lemma StmtKeepsScopes(c: Names, ret: TRef, level: nat, s: RStmt)
    requires c.locals != [] && ScopesOk(c.locals)
    ensures ScopesOk(ResolveStmt(c, ret, level, s).locals)
  {
    hide ScopesOk, ResolveVarDef;
    if s.RVarDef? {
      VarDefKeepsScopes(c, s.x, s.tname, s.node);
    } else {
      OuterScopesKeptBy(c, ret, level, s);
    }
  }

  /** The global scope, too, holds no name twice: a definition that is refused leaves no symbol but its own. */
  lemma {:induction false} TypesKeepScope(g: Scope, ds: seq<Def>)
    requires ScopeOk(g)
    ensures ScopeOk(DeclareTypes(g, ds).scope)
    decreases |ds|
  {
    hide ScopeOk;
    if ds != [] {
      if ds[0].TypeDef? {
        var s := Symbol(ds[0].name, KType);
        TryAddIs(g, s);
        TypesKeepScope(if TryAdd(g, s).Some? then g + [s] else g, ds[1..]);
      } else {
        TypesKeepScope(g, ds[1..]);
      }
    }
  }

  lemma {:induction false} FuncsKeepScope(g: Scope, ds: seq<Def>)
    requires ScopeOk(g)
    ensures ScopeOk(DeclareFuncs(g, ds).scope)
    decreases |ds|
  {
    hide ScopeOk, DeclareFunc;
    if ds != [] {
      if ds[0].FuncDef? {
        FuncKeepsScope(g, ds[0].name, ds[0].params, ds[0].ret);
        FuncsKeepScope(DeclareFunc(g, ds[0].name, ds[0].params, ds[0].ret).scope, ds[1..]);
      } else {
        FuncsKeepScope(g, ds[1..]);
      }
    }
  }

  /** A declaration that is refused for a clash leaves the scope as it was. */
  lemma FuncKeepsScope(g: Scope, name: string, ps: seq<Param>, ret: string)
    requires ScopeOk(g)
    ensures ScopeOk(DeclareFunc(g, name, ps, ret).scope)
    ensures var r := DeclareFunc(g, name, ps, ret);
            r.scope == g || exists k :: r.scope == g + [Symbol(name, k)]
    ensures (TryAdd(g, Symbol(name, KType)).None? || !DistinctParams(ps)) ==>
              var r := DeclareFunc(g, name, ps, ret); !r.ok && r.scope == g
  {
    hide ScopeOk, FindType;
    var s := Symbol(name, KFunc([], TErr));
    TryAddIs(g, Symbol(name, KType));
    ScopeAdd(g, Symbol(name, KType));
    var g0 := g + [s];
    EmptyScopeOk();
    ClashIs(g0, ps, 0, []);
    assert ps[0..] == ps;
    var d := DeclareFunc(g, name, ps, ret);
    if d.scope != g {
      ScopeAdd(g, Symbol(name, KFunc(d.decl.params, d.decl.ret)));
      assert d.scope == g + [Symbol(name, KFunc(d.decl.params, d.decl.ret))];
    }
  }

  predicate DistinctParams(ps: seq<Param>) {
    forall i :: 0 <= i < |ps| ==> ParamFits(ps, i)
  }

  predicate ParamFits(ps: seq<Param>, i: nat)
    requires i < |ps|
  {
    !Reserved(ps[i].name) && forall j :: 0 <= j < i ==> ps[j].name != ps[i].name
  }

  /** A clash of parameters is a reserved name or a name twice, whatever the types. */
  lemma {:induction false} ClashIs(g: Scope, ps: seq<Param>, n: nat, scope: Scope)
    requires n <= |ps| && ParamsSoFar(scope, ps, n)
    ensures DeclareParams(g, ps[n..], scope).clash <==> exists i :: n <= i < |ps| && !ParamFits(ps, i)
    decreases |ps| - n
  {
    hide ParamFits, FindType;
    if n < |ps| {
      var t := FindType(Names(TableOf(g), map[], [scope]), ps[n].tname);
      var s := Symbol(ps[n].name, KParam(TypeOr(t), ps[n].node));
      assert ps[n..][1..] == ps[n + 1..];
      FitsIs(ps, n, scope, s);
      if TryAdd(scope, s).Some? {
        ClashIs(g, ps, n + 1, scope + [s]);
      }
    }
  }

  lemma FitsIs(ps: seq<Param>, n: nat, scope: Scope, s: Symbol)
    requires n < |ps| && ParamsSoFar(scope, ps, n) && s.name == ps[n].name && s.kind.KParam?
    ensures TryAdd(scope, s).Some? <==> ParamFits(ps, n)
    ensures TryAdd(scope, s).Some? ==> ParamsSoFar(scope + [s], ps, n + 1) && TryAdd(scope, s).value == scope + [s]
  {
    TryAddIs(scope, s);
    ScopeAdd(scope, s);
    assert forall j :: 0 <= j < n ==> scope[j].name == ps[j].name;
  }

  lemma {:induction false} VarsKeepScope(g: Scope, ds: seq<Def>)
    requires ScopeOk(g)
    ensures ScopeOk(DeclareVars(g, ds).scope)
    decreases |ds|
  {
    hide ScopeOk, FindType;
    if ds != [] {
      if ds[0].GlobalDef? {
        var s := Symbol(ds[0].name, KVar(TypeOr(FindType(Globals(g), ds[0].tname)), ds[0].node));
        TryAddIs(g, s);
        VarsKeepScope(if TryAdd(g, s).Some? then g + [s] else g, ds[1..]);
      } else {
        VarsKeepScope(g, ds[1..]);
      }
    }
  }

  // The whole run

  /** The global scope between any two definitions of any phase. */
  lemma GlobalScopesOk(ds: seq<Def>, n: nat)
    requires n <= |ds|
    ensures var g1 := DeclareTypes([], ds).scope;
            var g2 := DeclareFuncs(g1, ds).scope;
            && ScopeOk(DeclareTypes([], ds[..n]).scope)
            && ScopeOk(DeclareFuncs(g1, ds[..n]).scope)
            && ScopeOk(DeclareVars(g2, ds[..n]).scope)
  {
    hide ScopeOk;
    var g1 := DeclareTypes([], ds).scope;
    var g2 := DeclareFuncs(g1, ds).scope;
    EmptyScopeOk();
    TypesKeepScope([], ds);
    TypesKeepScope([], ds[..n]);
    FuncsKeepScope(g1, ds);
    FuncsKeepScope(g1, ds[..n]);
    VarsKeepScope(g2, ds[..n]);
  }

  /** Every chain of scopes that is there at some point of the resolution of a block. */
  predicate BlockScopesOk(c: Names, ret: TRef, level: nat, b: seq<RStmt>)
    requires c.locals != []
    decreases b, 0
  {
    && ScopesOk(c.locals)
    && (b != [] ==>
          && StmtScopesOk(c, ret, level, b[0])
          && BlockScopesOk(c.(locals := ResolveStmt(c, ret, level, b[0]).locals), ret, level, b[1..]))
  }

  predicate StmtScopesOk(c: Names, ret: TRef, level: nat, s: RStmt)
    decreases s, 0
  {
    match s
    case RIf(_, t) => InnerScopesOk(c, ret, level, t)
    case RIfElse(_, t, e) => InnerScopesOk(c, ret, level, t) && InnerScopesOk(c, ret, level, e)
    case RWhile(_, b) => InnerScopesOk(c, ret, level + 1, b)
    case RBlock(b) => InnerScopesOk(c, ret, level, b)
    case _ => true
  }

  predicate InnerScopesOk(c: Names, ret: TRef, level: nat, b: seq<RStmt>)
    decreases b, 1
  {
    BlockScopesOk(c.(locals := c.locals + [[]]), ret, level, b)
  }

  /** Proper scopes stay proper, through all blocks inside the block. */
  lemma {:induction false} BlockScopes(c: Names, ret: TRef, level: nat, b: seq<RStmt>)
    requires c.locals != [] && ScopesOk(c.locals)
    ensures BlockScopesOk(c, ret, level, b)
    decreases b, 0
  {
    hide ResolveStmt, ScopesOk, StmtScopesOk;
    if b != [] {
      StmtScopes(c, ret, level, b[0]);
      StmtKeepsScopes(c, ret, level, b[0]);
      BlockScopes(c.(locals := ResolveStmt(c, ret, level, b[0]).locals), ret, level, b[1..]);
    }
  }

  lemma {:induction false} StmtScopes(c: Names, ret: TRef, level: nat, s: RStmt)
    requires ScopesOk(c.locals)
    ensures StmtScopesOk(c, ret, level, s)
    decreases s, 0
  {
    hide ScopesOk;
    match s
    case RIf(_, t) => InnerScopes(c, ret, level, t);
    case RIfElse(_, t, e) =>
      InnerScopes(c, ret, level, t);
      InnerScopes(c, ret, level, e);
    case RWhile(_, b) => InnerScopes(c, ret, level + 1, b);
    case RBlock(b) => InnerScopes(c, ret, level, b);
    case _ =>
  }

  lemma {:induction false} InnerScopes(c: Names, ret: TRef, level: nat, b: seq<RStmt>)
    requires ScopesOk(c.locals)
    ensures InnerScopesOk(c, ret, level, b)
    decreases b, 1
  {
    EmptyScopeOk();
    BlockScopes(c.(locals := c.locals + [[]]), ret, level, b);
  }

  /** The scope that a body starts in, whatever types its parameters were given. */
  lemma ParamScopeIs(ps: seq<Param>, ts: seq<TRef>)
    ensures ScopeOk(ParamScope(ps, ts)) <==> DistinctParams(ps)
  {
    var s := ParamScope(ps, ts);
    if DistinctParams(ps) {
      forall i, j | 0 <= i < j < |s| ensures s[i].name != s[j].name {
        assert ParamFits(ps, j);
      }
      forall i | 0 <= i < |s| ensures !Reserved(s[i].name) {
        assert ParamFits(ps, i);
      }
    }
    if ScopeOk(s) {
      forall i | 0 <= i < |ps| ensures ParamFits(ps, i) {
        forall j | 0 <= j < i ensures ps[j].name != ps[i].name {
          assert s[j].name != s[i].name;
        }
        assert !Reserved(s[i].name);
      }
    }
  }

  /** All scopes inside a body are proper if and only if its parameters have names of their own. */
  lemma BodyScopes(table: Table, al: Aliases, f: Def, d: Decl)
    requires f.FuncDef? && f.body.Some?
    ensures BlockScopesOk(Names(table, al, [ParamScope(f.params, d.params)]), d.ret, 0, f.body.value)
            <==> DistinctParams(f.params)
  {
    hide ScopeOk, DistinctParams;
    var c := Names(table, al, [ParamScope(f.params, d.params)]);
    ParamScopeIs(f.params, d.params);
    assert ScopesOk(c.locals) <==> ScopeOk(c.locals[0]);
    if ScopesOk(c.locals) {
      BlockScopes(c, d.ret, 0, f.body.value);
    }
  }

  /** The scopes of all bodies, in the order in which the last phase resolves them. */
  predicate ImplScopesOk(table: Table, al: Aliases, ds: seq<Def>, decls: seq<Decl>)
    decreases |ds|
  {
    if ds == [] then true
    else if !ds[0].FuncDef? || decls == [] then ImplScopesOk(table, al, ds[1..], decls)
    else
      && (ds[0].body.Some? ==>
            BlockScopesOk(Names(table, al, [ParamScope(ds[0].params, decls[0].params)]), decls[0].ret, 0,
                          ds[0].body.value))
      && ImplScopesOk(table, al, ds[1..], decls[1..])
  }

  function FuncCount(ds: seq<Def>): nat {
    if ds == [] then 0 else (if ds[0].FuncDef? then 1 else 0) + FuncCount(ds[1..])
  }

  lemma {:induction false} DeclCount(g: Scope, ds: seq<Def>)
    ensures |DeclareFuncs(g, ds).decls| == FuncCount(ds)
    decreases |ds|
  {
    hide DeclareFunc;
    if ds != [] {
      DeclCount(if ds[0].FuncDef? then DeclareFunc(g, ds[0].name, ds[0].params, ds[0].ret).scope else g, ds[1..]);
    }
  }

  predicate ParamsDistinct(d: Def) {
    d.FuncDef? && d.body.Some? ==> DistinctParams(d.params)
  }

  lemma FirstAndRest(ds: seq<Def>)
    requires ds != []
    ensures forall d :: d in ds <==> d == ds[0] || d in ds[1..]
  {
    assert ds == [ds[0]] + ds[1..];
  }

  lemma {:induction false} ImplScopes(table: Table, al: Aliases, ds: seq<Def>, decls: seq<Decl>)
    requires |decls| == FuncCount(ds)
    ensures ImplScopesOk(table, al, ds, decls) <==> forall d :: d in ds ==> ParamsDistinct(d)
    decreases |ds|
  {
    hide BlockScopesOk, DistinctParams;
    if ds != [] {
      assert (forall d :: d in ds ==> ParamsDistinct(d))
        <==> ParamsDistinct(ds[0]) && forall d :: d in ds[1..] ==> ParamsDistinct(d) by { FirstAndRest(ds); }
      if ds[0].FuncDef? {
        if ds[0].body.Some? {
          BodyScopes(table, al, ds[0], decls[0]);
        }
        ImplScopes(table, al, ds[1..], decls[1..]);
      } else {
        ImplScopes(table, al, ds[1..], decls);
      }
    }
  }

  /** Whatever is analysed, the global scope is proper after each phase, and all scopes inside bodies are proper if
      and only if no function with a body repeats the name of a parameter or gives it a reserved one. */
  lemma ScopesOfEveryRun(ds: seq<Def>)
    ensures var g1 := DeclareTypes([], ds).scope;
            var g2 := DeclareFuncs(g1, ds);
            var g3 := DeclareVars(g2.scope, ds).scope;
            && ScopeOk(g1) && ScopeOk(g2.scope) && ScopeOk(g3)
            && (ImplScopesOk(TableOf(g3), DescribeTypes(g3, map[], ds).aliases, ds, g2.decls)
                <==> forall d :: d in ds ==> ParamsDistinct(d))
  {
    hide ScopeOk, ParamsDistinct;
    GlobalScopesOk(ds, |ds|);
    assert ds[..|ds|] == ds;
    var g1 := DeclareTypes([], ds).scope;
    var g2 := DeclareFuncs(g1, ds);
    var g3 := DeclareVars(g2.scope, ds).scope;
    DeclCount(g1, ds);
    ImplScopes(TableOf(g3), DescribeTypes(g3, map[], ds).aliases, ds, g2.decls);
  }

  /** In an accepted program the condition holds. */
  lemma AcceptedScopes(ds: seq<Def>)
    requires Analyse(ds).Some?
    ensures forall d :: d in ds ==> ParamsDistinct(d)
  {
    hide Analyse, BodyOk, NamesOk;
    AcceptedIff(ds);
    forall d | d in ds ensures ParamsDistinct(d) {
      assert HeaderOk(TypeNames(ds), d);
      if d.FuncDef? {
        forall i | 0 <= i < |d.params| ensures ParamFits(d.params, i) {
          assert ParamOk(TypeNames(ds), d.params, i);
        }
      }
    }
  }

  /** `f(x: int, x: int) { }`: the function is refused, but its body is resolved all the same, in a scope with `x`
      twice. */
  lemma ParameterTwice(m: Node, n: Node)
    ensures var ds := [FuncDef("f", [Param("x", "int", m), Param("x", "int", n)], "void", Some([]))];
            var g1 := DeclareTypes([], ds).scope;
            var g2 := DeclareFuncs(g1, ds);
            var g3 := DeclareVars(g2.scope, ds).scope;
            && Analyse(ds).None?
            && !ImplScopesOk(TableOf(g3), DescribeTypes(g3, map[], ds).aliases, ds, g2.decls)
  {
    hide Analyse, ImplScopesOk, DeclareTypes, DeclareFuncs, DeclareVars, DescribeTypes;
    var ps := [Param("x", "int", m), Param("x", "int", n)];
    var d := FuncDef("f", ps, "void", Some([]));
    assert !ParamFits(ps, 1) by {
      assert ps[0].name == ps[1].name;
    }
    assert d in [d] && !ParamsDistinct(d);
    ScopesOfEveryRun([d]);
    if Analyse([d]).Some? {
      AcceptedScopes([d]);
    }
  }
}
