/** What analysis accepts, said without phases or scopes, and so without an order of definitions. */
module Acceptance {
  import opened Ast
  import opened Raw
  import opened Sem
  import opened Typing
  import L = Lowerable

  // The declarative reading of a program

  /** All definitions have names of their own that are not reserved. */
  predicate NamesOk(ds: seq<Def>) {
    && (forall i, j :: 0 <= i < j < |ds| ==> ds[i].name != ds[j].name)
    && (forall d :: d in ds ==> !Reserved(d.name))
  }

  /** A definition can be told from its name. */
  predicate Keyed(ds: seq<Def>) {
    forall d, e :: d in ds && e in ds && d.name == e.name ==> d == e
  }

  function TypeNames(ds: seq<Def>): set<string> {
    set d | d in ds && d.TypeDef? :: d.name
  }

  predicate IsType(types: set<string>, x: string) {
    x in types || ScalarTy(x).Some?
  }

  function TypesOf(ps: seq<Param>): (r: seq<TRef>)
    ensures |r| == |ps|
  {
    seq(|ps|, i requires 0 <= i < |ps| => TName(ps[i].tname))
  }

  function DeclOf(d: Def): Decl
    requires d.FuncDef?
  {
    Decl(TypesOf(d.params), TName(d.ret))
  }

  function KindOf(d: Def): Kind {
    match d
    case TypeDef(_, _) => KType
    case FuncDef(_, ps, ret, _) => KFunc(TypesOf(ps), TName(ret))
    case GlobalDef(_, t, node) => KVar(TName(t), node)
  }

  /** The symbols of all definitions, in order. */
  function Symbols(ds: seq<Def>): Scope {
    if ds == [] then [] else [Symbol(ds[0].name, KindOf(ds[0]))] + Symbols(ds[1..])
  }

  function DeclaredTable(ds: seq<Def>): Table {
    TableOf(Symbols(ds))
  }

  function DeclaredAliases(ds: seq<Def>): Aliases {
    if ds == [] then map[]
    else (if ds[0].TypeDef? then map[ds[0].name := TName(ds[0].aliased)] else map[]) + DeclaredAliases(ds[1..])
  }

  /** A parameter has a name of its own, and a type whose name no parameter before it hides. */
  predicate ParamOk(types: set<string>, ps: seq<Param>, i: nat)
    requires i < |ps|
  {
    && !Reserved(ps[i].name) && IsType(types, ps[i].tname)
    && forall j :: 0 <= j < i ==> ps[j].name != ps[i].name && ps[j].name != ps[i].tname
  }

  predicate ParamsOk(types: set<string>, ps: seq<Param>) {
    forall i :: 0 <= i < |ps| ==> ParamOk(types, ps, i)
  }

  predicate HeaderOk(types: set<string>, d: Def) {
    match d
    case TypeDef(_, t) => IsType(types, t)
    case FuncDef(_, ps, ret, _) => IsType(types, ret) && ParamsOk(types, ps)
    case GlobalDef(_, t, _) => IsType(types, t)
  }

  function Body(table: Table, al: Aliases, d: Def): Option<Func>
    requires d.FuncDef? && d.body.Some?
  {
    ResolveImpl(table, al, d, DeclOf(d))
  }

  function Annotated(al: Aliases, d: Def, ss: seq<Stmt>): Func
    requires d.FuncDef?
  {
    FuncOf(al, d, DeclOf(d), ss)
  }

  /** `ss` is the body of the definition, annotated so that it is typed where every definition can be seen. A function
      that is not declared `void` returns a value on every path. */
  predicate BodyTyped(table: Table, al: Aliases, d: Def, ss: seq<Stmt>)
    requires d.FuncDef? && d.body.Some?
  {
    var f := Annotated(al, d, ss);
    && ErasesBlock(ss, d.body.value) && StmtsOk(BodyGamma(GlobalsOf(table, al), f), f.sig.ret, ss)
    && L.AllInLoops(ss, false) && (d.ret != "void" ==> Exits(ss) && AllReturnValues(ss))
  }

  ghost predicate BodyOk(table: Table, al: Aliases, d: Def) {
    d.FuncDef? && d.body.Some? ==> exists ss :: BodyTyped(table, al, d, ss)
  }

  predicate Resolves(table: Table, al: Aliases, d: Def) {
    d.FuncDef? && d.body.Some? ==> Body(table, al, d).Some?
  }

  /** Distinct names, headers that name types, and bodies that can be typed where every definition can be seen. */
  ghost predicate Declared(ds: seq<Def>) {
    && NamesOk(ds)
    && (forall d :: d in ds ==> HeaderOk(TypeNames(ds), d))
    && (forall d :: d in ds ==> BodyOk(DeclaredTable(ds), DeclaredAliases(ds), d))
  }

  function Bodies(table: Table, al: Aliases, ds: seq<Def>): Program {
    if ds == [] then map[]
    else
      (if ds[0].FuncDef? && ds[0].body.Some? && Body(table, al, ds[0]).Some?
       then map[ds[0].name := Body(table, al, ds[0]).value] else map[])
      + Bodies(table, al, ds[1..])
  }

  function DeclaredProgram(ds: seq<Def>): Program {
    Bodies(DeclaredTable(ds), DeclaredAliases(ds), ds)
  }

  lemma ParamEntriesAre(al: Aliases, ps: seq<Param>)
    ensures EntriesOf(al, ParamScope(ps, TypesOf(ps)))
         == ParamEntries(ParamNames(ps), Unders(al, TypesOf(ps)), ParamNodes(ps))
  {
  }

  /** A body resolves exactly if it can be typed, and then to the tree that is. */
  lemma BodyIff(table: Table, al: Aliases, d: Def, ss: seq<Stmt>)
    requires d.FuncDef? && d.body.Some? && BuiltinsStand(al)
    ensures Body(table, al, d) == Some(Annotated(al, d, ss)) <==> BodyTyped(table, al, d, ss)
    ensures Body(table, al, d).Some? ==> Body(table, al, d).value == Annotated(al, d, Body(table, al, d).value.body)
  {
    hide BuiltinsStand, ResolveBlock, StmtsOk, ErasesBlock, L.AllInLoops, AllReturnValues, Exits, RExits, Under,
      GlobalsOf;
    var c := Names(table, al, [ParamScope(d.params, TypesOf(d.params))]);
    ParamEntriesAre(al, d.params);
    assert GammaOf(c).locals == [EntriesOf(al, c.locals[0])];
    BlockIff(c, TName(d.ret), 0, d.body.value, ss);
    if ErasesBlock(ss, d.body.value) {
      ErasedExits(ss, d.body.value);
    }
  }

  lemma BodyOkIff(table: Table, al: Aliases, d: Def)
    requires BuiltinsStand(al)
    ensures BodyOk(table, al, d) <==> Resolves(table, al, d)
  {
    hide BuiltinsStand, Body, BodyTyped, Annotated;
    if d.FuncDef? && d.body.Some? {
      if ss :| BodyTyped(table, al, d, ss) {
        BodyIff(table, al, d, ss);
      }
      if Body(table, al, d).Some? {
        BodyIff(table, al, d, Body(table, al, d).value.body);
      }
    }
  }

  lemma NamesKey(ds: seq<Def>)
    requires NamesOk(ds)
    ensures Keyed(ds)
  {
  }

  // Scopes

  predicate ScopeOk(g: Scope) {
    && (forall i, j :: 0 <= i < j < |g| ==> g[i].name != g[j].name)
    && (forall i :: 0 <= i < |g| ==> !Reserved(g[i].name))
  }

  lemma {:induction false} FindInScope(g: Scope, x: string)
    ensures Find(g, x).Some? <==> exists i :: 0 <= i < |g| && g[i].name == x
  {
    if g != [] {
      FindInScope(g[1..], x);
      if i :| 0 <= i < |g[1..]| && g[1..][i].name == x {
        assert g[i + 1].name == x;
      }
      if i :| 0 <= i < |g| && g[i].name == x && g[0].name != x {
        assert g[1..][i - 1].name == x;
      }
    }
  }

  lemma ScopeAdd(g: Scope, s: Symbol)
    ensures ScopeOk(g + [s]) <==> ScopeOk(g) && !Reserved(s.name) && forall i :: 0 <= i < |g| ==> g[i].name != s.name
  {
    var g' := g + [s];
    assert g'[|g|] == s;
    assert forall i :: 0 <= i < |g| ==> g'[i] == g[i];
    if ScopeOk(g') {
      forall i, j | 0 <= i < j < |g| ensures g[i].name != g[j].name {
        assert g'[i].name != g'[j].name;
      }
      forall i | 0 <= i < |g| ensures g[i].name != s.name && !Reserved(g[i].name) {
        assert g'[i].name != g'[|g|].name;
      }
    }
  }

  lemma TryAddIs(g: Scope, s: Symbol)
    requires ScopeOk(g)
    ensures TryAdd(g, s).Some? <==> ScopeOk(g + [s])
  {
    FindInScope(g, s.name);
    ScopeAdd(g, s);
  }

  lemma {:induction false} TableAdd(g: Scope, s: Symbol)
    requires forall i :: 0 <= i < |g| ==> g[i].name != s.name
    ensures s.name !in TableOf(g) && TableOf(g + [s]) == TableOf(g)[s.name := s.kind]
  {
    if g != [] {
      TableAdd(g[1..], s);
      assert (g + [s])[1..] == g[1..] + [s];
    } else {
      assert (g + [s])[1..] == [];
    }
  }

  lemma ScopePrefix(a: Scope, b: Scope)
    requires ScopeOk(a + b)
    ensures ScopeOk(a)
  {
    forall i, j | 0 <= i < j < |a| ensures a[i].name != a[j].name {
      assert (a + b)[i] == a[i] && (a + b)[j] == a[j];
    }
    forall i | 0 <= i < |a| ensures !Reserved(a[i].name) {
      assert (a + b)[i] == a[i];
    }
  }

  lemma {:induction false} TableIs(g: Scope, x: string)
    requires ScopeOk(g)
    ensures x in TableOf(g) <==> exists i :: 0 <= i < |g| && g[i].name == x
    ensures forall i :: 0 <= i < |g| && g[i].name == x ==> x in TableOf(g) && TableOf(g)[x] == g[i].kind
  {
    if g != [] {
      assert ScopeOk(g[1..]);
      TableIs(g[1..], x);
      if i :| 0 <= i < |g[1..]| && g[1..][i].name == x {
        assert g[i + 1].name == x;
      }
      forall i | 0 <= i < |g| && g[i].name == x ensures x in TableOf(g) && TableOf(g)[x] == g[i].kind {
        if i > 0 {
          assert g[1..][i - 1] == g[i];
        }
      }
    }
  }

  /** The types that can be named from the global scope are `types` and the built-in ones. */
  ghost predicate Shows(g: Scope, types: set<string>) {
    forall x :: FindType(Globals(g), x).Some? <==> IsType(types, x)
  }

  lemma AddOther(g: Scope, types: set<string>, s: Symbol)
    requires ScopeOk(g + [s]) && Shows(g, types) && !s.kind.KType?
    ensures Shows(g + [s], types)
  {
    ScopeAdd(g, s);
    TableAdd(g, s);
    forall x ensures FindType(Globals(g + [s]), x).Some? <==> IsType(types, x) {
      assert FindType(Globals(g), x).Some? <==> IsType(types, x);
    }
  }

  // The phases

  function TypeSyms(ds: seq<Def>): Scope {
    if ds == [] then [] else (if ds[0].TypeDef? then [Symbol(ds[0].name, KindOf(ds[0]))] else []) + TypeSyms(ds[1..])
  }

  function FuncSyms(ds: seq<Def>): Scope {
    if ds == [] then [] else (if ds[0].FuncDef? then [Symbol(ds[0].name, KindOf(ds[0]))] else []) + FuncSyms(ds[1..])
  }

  function VarSyms(ds: seq<Def>): Scope {
    if ds == [] then [] else (if ds[0].GlobalDef? then [Symbol(ds[0].name, KindOf(ds[0]))] else []) + VarSyms(ds[1..])
  }

  datatype Phase = Types | Funcs | Vars

  predicate In(d: Def, phase: Phase) {
    match phase
    case Types => d.TypeDef?
    case Funcs => d.FuncDef?
    case Vars => d.GlobalDef?
  }

  predicate HeadersOk(types: set<string>, ds: seq<Def>, phase: Phase) {
    ds == [] || ((In(ds[0], phase) ==> HeaderOk(types, ds[0])) && HeadersOk(types, ds[1..], phase))
  }

  predicate BodiesOk(table: Table, al: Aliases, ds: seq<Def>) {
    ds == [] || (Resolves(table, al, ds[0]) && BodiesOk(table, al, ds[1..]))
  }

  function Decls(ds: seq<Def>): seq<Decl> {
    if ds == [] then [] else (if ds[0].FuncDef? then [DeclOf(ds[0])] else []) + Decls(ds[1..])
  }

  lemma TypeSymsIs(ds: seq<Def>)
    ensures TypeSyms(ds) == if ds == [] then []
                            else if ds[0].TypeDef? then [Symbol(ds[0].name, KType)] + TypeSyms(ds[1..])
                            else TypeSyms(ds[1..])
  {
  }

  lemma {:induction false} TypesDeclared(g: Scope, ds: seq<Def>)
    requires ScopeOk(g)
    ensures DeclareTypes(g, ds).ok <==> ScopeOk(g + TypeSyms(ds))
    ensures DeclareTypes(g, ds).ok ==> DeclareTypes(g, ds).scope == g + TypeSyms(ds)
    decreases |ds|
  {
    hide ScopeOk, TypeSyms, Reserved, Find;
    TypeSymsIs(ds);
    if ds == [] {
      assert g + [] == g;
    } else if ds[0].TypeDef? {
      var s := Symbol(ds[0].name, KType);
      TryAddIs(g, s);
      assert g + TypeSyms(ds) == (g + [s]) + TypeSyms(ds[1..]);
      if TryAdd(g, s).Some? {
        TypesDeclared(g + [s], ds[1..]);
      } else if ScopeOk(g + TypeSyms(ds)) {
        ScopePrefix(g + [s], TypeSyms(ds[1..]));
      }
    } else {
      assert TypeSyms(ds) == TypeSyms(ds[1..]);
      TypesDeclared(g, ds[1..]);
    }
  }

  /** The scope of the parameters before the `n`-th. */
  predicate ParamsSoFar(scope: Scope, ps: seq<Param>, n: nat) {
    && n <= |ps| && |scope| == n && ScopeOk(scope)
    && forall i :: 0 <= i < n ==> scope[i].name == ps[i].name && scope[i].kind.KParam?
  }

  lemma {:induction false} FindParam(scope: Scope, x: string)
    requires forall i :: 0 <= i < |scope| ==> scope[i].kind.KParam?
    ensures Find(scope, x).Some? ==> Find(scope, x).value.KParam?
  {
    if scope != [] {
      FindParam(scope[1..], x);
    }
  }

  lemma ParamTypeIs(g: Scope, types: set<string>, ps: seq<Param>, n: nat, scope: Scope, x: string)
    requires ParamsSoFar(scope, ps, n) && Shows(g, types)
    ensures FindType(Names(TableOf(g), map[], [scope]), x).Some?
            <==> IsType(types, x) && forall j :: 0 <= j < n ==> ps[j].name != x
  {
    FindParam(scope, x);
    FindInScope(scope, x);
    var c := Names(TableOf(g), map[], [scope]);
    assert c.(locals := c.locals[..0]) == Globals(g);
    assert FindType(Globals(g), x).Some? <==> IsType(types, x);
    if Find(scope, x).Some? {
      var i :| 0 <= i < |scope| && scope[i].name == x;
      assert ps[i].name == x;
    }
  }

  lemma {:induction false} ParamsDeclared(g: Scope, types: set<string>, ps: seq<Param>, n: nat, scope: Scope)
    requires n <= |ps| && ParamsSoFar(scope, ps, n) && Shows(g, types)
    ensures var r := DeclareParams(g, ps[n..], scope);
            && (!r.clash && r.ok <==> forall i :: n <= i < |ps| ==> ParamOk(types, ps, i))
            && (!r.clash && r.ok ==> r.types == TypesOf(ps)[n..])
    decreases |ps| - n
  {
    hide Shows, ParamOk, ParamsSoFar;
    if n < |ps| {
      var t := FindType(Names(TableOf(g), map[], [scope]), ps[n].tname);
      var s := Symbol(ps[n].name, KParam(TypeOr(t), ps[n].node));
      ParamStep(g, types, ps, n, scope);
      assert ps[n..][1..] == ps[n + 1..];
      if ParamOk(types, ps, n) {
        ParamsDeclared(g, types, ps, n + 1, scope + [s]);
        assert TypesOf(ps)[n..] == [TName(ps[n].tname)] + TypesOf(ps)[n + 1..];
      }
    }
  }

  lemma ParamStep(g: Scope, types: set<string>, ps: seq<Param>, n: nat, scope: Scope)
    requires ParamsSoFar(scope, ps, n) && Shows(g, types) && n < |ps|
    ensures var t := FindType(Names(TableOf(g), map[], [scope]), ps[n].tname);
            var s := Symbol(ps[n].name, KParam(TypeOr(t), ps[n].node));
            && (t.Some? && TryAdd(scope, s).Some? <==> ParamOk(types, ps, n))
            && (TryAdd(scope, s).Some? ==> ParamsSoFar(scope + [s], ps, n + 1) && TryAdd(scope, s).value == scope + [s])
  {
    hide Shows;
    ParamTypeIs(g, types, ps, n, scope, ps[n].tname);
    var t := FindType(Names(TableOf(g), map[], [scope]), ps[n].tname);
    var s := Symbol(ps[n].name, KParam(TypeOr(t), ps[n].node));
    TryAddIs(scope, s);
    ScopeAdd(scope, s);
    assert forall j :: 0 <= j < n ==> scope[j].name == ps[j].name;
  }

  lemma FuncDeclared(g: Scope, types: set<string>, d: Def)
    requires ScopeOk(g) && Shows(g, types) && d.FuncDef?
    ensures var r := DeclareFunc(g, d.name, d.params, d.ret);
            && (r.ok <==> ScopeOk(g + [Symbol(d.name, KindOf(d))]) && HeaderOk(types, d))
            && (r.ok ==> r.scope == g + [Symbol(d.name, KindOf(d))] && r.decl == DeclOf(d))
  {
    hide Shows;
    var s0 := Symbol(d.name, KFunc([], TErr));
    TryAddIs(g, Symbol(d.name, KType));
    ScopeAdd(g, Symbol(d.name, KType));
    ScopeAdd(g, s0);
    ScopeAdd(g, Symbol(d.name, KindOf(d)));
    if ScopeOk(g + [s0]) {
      var g0 := g + [s0];
      AddOther(g, types, s0);
      ParamsDeclared(g0, types, d.params, 0, []);
      assert d.params[0..] == d.params && TypesOf(d.params)[0..] == TypesOf(d.params);
      ShowsIs(g0, types, d.ret);
    }
  }

  lemma ShowsIs(g: Scope, types: set<string>, x: string)
    requires Shows(g, types)
    ensures FindType(Globals(g), x).Some? <==> IsType(types, x)
  {
  }

  lemma {:induction false} FuncsDeclared(g: Scope, types: set<string>, ds: seq<Def>)
    requires ScopeOk(g) && Shows(g, types)
    ensures var r := DeclareFuncs(g, ds);
            && (r.ok <==> ScopeOk(g + FuncSyms(ds)) && HeadersOk(types, ds, Funcs))
            && (r.ok ==> r.scope == g + FuncSyms(ds) && r.decls == Decls(ds) && Shows(r.scope, types))
    decreases |ds|
  {
    hide Shows, HeaderOk, ScopeOk;
    if ds == [] {
      assert g + [] == g;
    } else if ds[0].FuncDef? {
      var s := Symbol(ds[0].name, KindOf(ds[0]));
      FuncDeclared(g, types, ds[0]);
      assert g + FuncSyms(ds) == (g + [s]) + FuncSyms(ds[1..]);
      if DeclareFunc(g, ds[0].name, ds[0].params, ds[0].ret).ok {
        AddOther(g, types, s);
        FuncsDeclared(g + [s], types, ds[1..]);
      } else if ScopeOk(g + FuncSyms(ds)) {
        ScopePrefix(g + [s], FuncSyms(ds[1..]));
      }
    } else {
      assert FuncSyms(ds) == FuncSyms(ds[1..]);
      FuncsDeclared(g, types, ds[1..]);
    }
  }

  lemma VarDeclared(g: Scope, types: set<string>, d: Def)
    requires ScopeOk(g) && Shows(g, types) && d.GlobalDef?
    ensures var r := DeclareVar(g, d.name, d.tname, d.node);
            && (r.ok <==> ScopeOk(g + [Symbol(d.name, KindOf(d))]) && HeaderOk(types, d))
            && (r.ok ==> r.scope == g + [Symbol(d.name, KindOf(d))])
  {
    hide Shows, ScopeOk;
    ShowsIs(g, types, d.tname);
    var s := Symbol(d.name, KVar(TypeOr(FindType(Globals(g), d.tname)), d.node));
    TryAddIs(g, s);
    ScopeAdd(g, s);
    ScopeAdd(g, Symbol(d.name, KindOf(d)));
  }

  lemma {:induction false} VarsDeclared(g: Scope, types: set<string>, ds: seq<Def>)
    requires ScopeOk(g) && Shows(g, types)
    ensures var r := DeclareVars(g, ds);
            && (r.ok <==> ScopeOk(g + VarSyms(ds)) && HeadersOk(types, ds, Vars))
            && (r.ok ==> r.scope == g + VarSyms(ds) && Shows(r.scope, types))
    decreases |ds|
  {
    hide Shows, ScopeOk, HeaderOk, DeclareVar;
    if ds == [] {
      assert g + [] == g;
    } else if ds[0].GlobalDef? {
      var s := Symbol(ds[0].name, KindOf(ds[0]));
      VarDeclared(g, types, ds[0]);
      assert g + VarSyms(ds) == (g + [s]) + VarSyms(ds[1..]);
      if DeclareVar(g, ds[0].name, ds[0].tname, ds[0].node).ok {
        AddOther(g, types, s);
        VarsDeclared(g + [s], types, ds[1..]);
      } else if ScopeOk(g + VarSyms(ds)) {
        ScopePrefix(g + [s], VarSyms(ds[1..]));
      }
    } else {
      assert VarSyms(ds) == VarSyms(ds[1..]);
      VarsDeclared(g, types, ds[1..]);
    }
  }

  lemma AddedFirst<T>(m: map<string, T>, x: string, v: T, rest: map<string, T>)
    ensures m[x := v] + rest == m + (map[x := v] + rest)
  {
  }

  lemma NothingAdded<T>(m: map<string, T>, rest: map<string, T>)
    ensures map[] + rest == rest
    ensures m + map[] == m
  {
  }

  lemma {:induction false} TypesDescribed(g: Scope, types: set<string>, al: Aliases, ds: seq<Def>)
    requires Shows(g, types)
    ensures var r := DescribeTypes(g, al, ds);
            && (r.ok <==> HeadersOk(types, ds, Types))
            && (r.ok ==> r.aliases == al + DeclaredAliases(ds))
    decreases |ds|
  {
    hide Shows;
    if ds == [] {
      NothingAdded(al, map[]);
    } else if ds[0].TypeDef? {
      ShowsIs(g, types, ds[0].aliased);
      var t := TypeOr(FindType(Globals(g), ds[0].aliased));
      TypesDescribed(g, types, al[ds[0].name := t], ds[1..]);
      AddedFirst(al, ds[0].name, t, DeclaredAliases(ds[1..]));
    } else {
      TypesDescribed(g, types, al, ds[1..]);
      NothingAdded(al, DeclaredAliases(ds[1..]));
    }
  }

  lemma {:induction false} ImplsResolved(table: Table, al: Aliases, p: Program, ds: seq<Def>)
    ensures var r := ResolveImpls(table, al, p, ds, Decls(ds));
            && (r.ok <==> BodiesOk(table, al, ds))
            && (r.ok ==> r.program == p + Bodies(table, al, ds))
    decreases |ds|
  {
    hide ResolveImpl;
    if ds == [] {
      NothingAdded(p, map[]);
    } else if ds[0].FuncDef? && ds[0].body.Some? {
      var f := Body(table, al, ds[0]);
      assert Decls(ds)[1..] == Decls(ds[1..]);
      ImplsResolved(table, al, if f.Some? then p[ds[0].name := f.value] else p, ds[1..]);
      if f.Some? {
        AddedFirst(p, ds[0].name, f.value, Bodies(table, al, ds[1..]));
      }
    } else {
      if ds[0].FuncDef? {
        assert Decls(ds)[1..] == Decls(ds[1..]);
      } else {
        assert Decls(ds) == Decls(ds[1..]);
      }
      ImplsResolved(table, al, p, ds[1..]);
      NothingAdded(p, Bodies(table, al, ds[1..]));
    }
  }

  // The whole analysis

  /** How often a name is declared in a scope. */
  function Count(g: Scope, x: string): nat {
    if g == [] then 0 else (if g[0].name == x then 1 else 0) + Count(g[1..], x)
  }

  lemma {:induction false} CountCat(a: Scope, b: Scope, x: string)
    ensures Count(a + b, x) == Count(a, x) + Count(b, x)
  {
    if a == [] {
      assert a + b == b;
    } else {
      assert (a + b)[1..] == a[1..] + b;
      CountCat(a[1..], b, x);
    }
  }

  lemma {:induction false} CountIs(g: Scope, x: string)
    ensures Count(g, x) > 0 <==> exists i :: 0 <= i < |g| && g[i].name == x
  {
    if g != [] {
      CountIs(g[1..], x);
      if i :| 0 <= i < |g[1..]| && g[1..][i].name == x {
        assert g[i + 1].name == x;
      }
      if i :| 0 < i < |g| && g[i].name == x {
        assert g[1..][i - 1].name == x;
      }
    }
  }

  ghost predicate CountsOk(g: Scope) {
    forall x :: Count(g, x) <= if Reserved(x) then 0 else 1
  }

  lemma ScopeTail(g: Scope)
    requires g != []
    ensures ScopeOk(g) <==>
              ScopeOk(g[1..]) && !Reserved(g[0].name) && !exists i :: 0 <= i < |g[1..]| && g[1..][i].name == g[0].name
  {
    var t := g[1..];
    assert forall i :: 0 <= i < |t| ==> t[i] == g[i + 1];
    if ScopeOk(g) {
      forall i, j | 0 <= i < j < |t| ensures t[i].name != t[j].name {
        assert g[i + 1].name != g[j + 1].name;
      }
    }
    if ScopeOk(t) && !Reserved(g[0].name) && !exists i :: 0 <= i < |t| && t[i].name == g[0].name {
      forall i, j | 0 <= i < j < |g| ensures g[i].name != g[j].name {
        assert g[j] == t[j - 1] && (i > 0 ==> g[i] == t[i - 1]);
      }
      forall i | 0 <= i < |g| ensures !Reserved(g[i].name) {
        assert i > 0 ==> g[i] == t[i - 1];
      }
    }
  }

  lemma {:induction false} ScopeCounts(g: Scope)
    ensures ScopeOk(g) <==> CountsOk(g)
  {
    hide Reserved, ScopeOk;
    if g == [] {
      assert ScopeOk(g) by { EmptyScopeOk(); }
    } else {
      ScopeTail(g);
      ScopeCounts(g[1..]);
      CountIs(g[1..], g[0].name);
      if CountsOk(g) {
        forall x ensures Count(g[1..], x) <= if Reserved(x) then 0 else 1 {
          assert Count(g, x) >= Count(g[1..], x);
        }
        assert Count(g, g[0].name) == 1 + Count(g[1..], g[0].name);
      }
      if ScopeOk(g) {
        forall x ensures Count(g, x) <= if Reserved(x) then 0 else 1 {
          assert Count(g[1..], x) <= if Reserved(x) then 0 else 1;
        }
      }
    }
  }

  lemma EmptyScopeOk()
    ensures ScopeOk([])
  {
  }

  function Grouped(ds: seq<Def>): Scope {
    TypeSyms(ds) + FuncSyms(ds) + VarSyms(ds)
  }

  lemma {:induction false} PartsCount(ds: seq<Def>, x: string)
    ensures Count(TypeSyms(ds), x) + Count(FuncSyms(ds), x) + Count(VarSyms(ds), x) == Count(Symbols(ds), x)
  {
    if ds != [] {
      PartsCount(ds[1..], x);
      var s := [Symbol(ds[0].name, KindOf(ds[0]))];
      CountCat(s, TypeSyms(ds[1..]), x);
      CountCat(s, FuncSyms(ds[1..]), x);
      CountCat(s, VarSyms(ds[1..]), x);
      CountCat(s, Symbols(ds[1..]), x);
      assert forall g: Scope :: [] + g == g;
      match ds[0]
      case TypeDef(_, _) =>
      case FuncDef(_, _, _, _) =>
      case GlobalDef(_, _, _) =>
    }
  }

  lemma GroupedCount(ds: seq<Def>, x: string)
    ensures Count(Grouped(ds), x) == Count(Symbols(ds), x)
  {
    CountCat(TypeSyms(ds) + FuncSyms(ds), VarSyms(ds), x);
    CountCat(TypeSyms(ds), FuncSyms(ds), x);
    PartsCount(ds, x);
  }

  lemma GroupedOk(ds: seq<Def>)
    ensures ScopeOk(Grouped(ds)) <==> ScopeOk(Symbols(ds))
  {
    hide ScopeOk, Grouped, Reserved, Count;
    ScopeCounts(Grouped(ds));
    ScopeCounts(Symbols(ds));
    forall x ensures Count(Grouped(ds), x) == Count(Symbols(ds), x) {
      GroupedCount(ds, x);
    }
  }

  lemma {:induction false} SymbolIn(ds: seq<Def>, s: Symbol)
    ensures s in Symbols(ds) <==> exists d :: d in ds && s == Symbol(d.name, KindOf(d))
    ensures s in Grouped(ds) <==> s in Symbols(ds)
  {
    if ds != [] {
      SymbolIn(ds[1..], s);
      if d :| d in ds && s == Symbol(d.name, KindOf(d)) {
        assert d == ds[0] || d in ds[1..];
      }
      if d :| d in ds[1..] && s == Symbol(d.name, KindOf(d)) {
        assert d in ds;
      }
    }
  }

  lemma {:induction false} SymbolsAt(ds: seq<Def>)
    ensures |Symbols(ds)| == |ds|
    ensures forall i :: 0 <= i < |ds| ==> Symbols(ds)[i] == Symbol(ds[i].name, KindOf(ds[i]))
  {
    if ds != [] {
      SymbolsAt(ds[1..]);
    }
  }

  lemma NamesAre(ds: seq<Def>)
    ensures NamesOk(ds) <==> ScopeOk(Symbols(ds))
  {
    SymbolsAt(ds);
    var g := Symbols(ds);
    if ScopeOk(g) {
      forall i, j | 0 <= i < j < |ds| ensures ds[i].name != ds[j].name {
        assert g[i].name != g[j].name;
      }
      forall d | d in ds ensures !Reserved(d.name) {
        var i :| 0 <= i < |ds| && ds[i] == d;
        assert !Reserved(g[i].name);
      }
    }
    if NamesOk(ds) {
      forall i | 0 <= i < |g| ensures !Reserved(g[i].name) {
        assert ds[i] in ds;
      }
    }
  }

  /** Two scopes with the same symbols read the same by name. */
  lemma SameTable(a: Scope, b: Scope)
    requires ScopeOk(a) && ScopeOk(b) && forall s :: s in a <==> s in b
    ensures TableOf(a) == TableOf(b)
  {
    forall x ensures (x in TableOf(a) <==> x in TableOf(b)) && (x in TableOf(a) ==> TableOf(a)[x] == TableOf(b)[x]) {
      InTable(a, b, x);
      InTable(b, a, x);
    }
  }

  lemma InTable(a: Scope, b: Scope, x: string)
    requires ScopeOk(a) && ScopeOk(b) && forall s :: s in a ==> s in b
    ensures x in TableOf(a) ==> x in TableOf(b) && TableOf(a)[x] == TableOf(b)[x]
  {
    TableIs(a, x);
    TableIs(b, x);
    if x in TableOf(a) {
      var i :| 0 <= i < |a| && a[i].name == x;
      assert a[i] in b;
      var j :| 0 <= j < |b| && b[j] == a[i];
    }
  }

  lemma {:induction false} HeadersAre(types: set<string>, ds: seq<Def>, phase: Phase)
    ensures HeadersOk(types, ds, phase) <==> forall d :: d in ds && In(d, phase) ==> HeaderOk(types, d)
  {
    hide HeaderOk, In;
    if ds != [] {
      HeadersAre(types, ds[1..], phase);
      assert ds == [ds[0]] + ds[1..];
    }
  }

  lemma {:induction false} BodiesAre(table: Table, al: Aliases, ds: seq<Def>)
    ensures BodiesOk(table, al, ds) <==> forall d :: d in ds ==> Resolves(table, al, d)
  {
    hide Resolves;
    if ds != [] {
      BodiesAre(table, al, ds[1..]);
      assert ds == [ds[0]] + ds[1..];
    }
  }

  lemma TypeNamesCons(ds: seq<Def>)
    requires ds != []
    ensures TypeNames(ds) == (if ds[0].TypeDef? then {ds[0].name} else {}) + TypeNames(ds[1..])
  {
    assert ds == [ds[0]] + ds[1..];
  }

  lemma {:induction false} TypeSymsCount(ds: seq<Def>, x: string)
    ensures Count(TypeSyms(ds), x) > 0 <==> x in TypeNames(ds)
  {
    hide TypeNames;
    if ds == [] {
      assert TypeNames([]) == {} by { NoTypeNames(); }
    } else {
      TypeSymsCount(ds[1..], x);
      TypeNamesCons(ds);
      CountCat([Symbol(ds[0].name, KindOf(ds[0]))], TypeSyms(ds[1..]), x);
      assert [] + TypeSyms(ds[1..]) == TypeSyms(ds[1..]);
    }
  }

  lemma NoTypeNames()
    ensures TypeNames([]) == {}
  {
  }

  lemma {:induction false} TypeSymsAreTypes(ds: seq<Def>)
    ensures forall i :: 0 <= i < |TypeSyms(ds)| ==> TypeSyms(ds)[i].kind == KType
  {
    if ds != [] {
      TypeSymsAreTypes(ds[1..]);
    }
  }

  lemma TypesShow(ds: seq<Def>)
    requires ScopeOk(TypeSyms(ds))
    ensures Shows(TypeSyms(ds), TypeNames(ds))
  {
    hide ScopeOk, Count, TypeNames, TypeSyms;
    var g := TypeSyms(ds);
    TypeSymsAreTypes(ds);
    forall x ensures FindType(Globals(g), x).Some? <==> IsType(TypeNames(ds), x) {
      TypeSymsCount(ds, x);
      CountIs(g, x);
      TableIs(g, x);
    }
  }

  lemma GroupedTable(ds: seq<Def>)
    requires ScopeOk(Symbols(ds))
    ensures ScopeOk(Grouped(ds)) && TableOf(Grouped(ds)) == DeclaredTable(ds)
  {
    hide ScopeOk, Grouped;
    GroupedOk(ds);
    forall s ensures s in Grouped(ds) <==> s in Symbols(ds) {
      SymbolIn(ds, s);
    }
    SameTable(Grouped(ds), Symbols(ds));
  }

  /** Acceptance does not need phases or a resolver: it is that names are distinct, that headers name types, and that
      bodies can be typed with all definitions in view. */
  lemma AcceptedIff(ds: seq<Def>)
    ensures Analyse(ds).Some? <==> Declared(ds)
    ensures Analyse(ds).Some? ==>
              Analyse(ds).value == Analysis(DeclaredTable(ds), DeclaredAliases(ds), DeclaredProgram(ds))
  {
    hide ScopeOk, HeaderOk, BodyOk, Resolves, Shows, TypeNames, DeclareTypes, DeclareFuncs, DeclareVars, DescribeTypes,
      BuiltinsStand, ResolveImpls, Bodies, DeclaredAliases, TypeSyms, FuncSyms, VarSyms, HeadersOk, BodiesOk, Decls,
      NamesOk, In;
    var types := TypeNames(ds);
    NamesAre(ds);
    GroupedOk(ds);
    EmptyScopeOk();
    TypesDeclared([], ds);
    var g1 := TypeSyms(ds);
    assert [] + g1 == g1;
    if ScopeOk(Symbols(ds)) {
      ScopePrefix(g1 + FuncSyms(ds), VarSyms(ds));
      ScopePrefix(g1, FuncSyms(ds));
    }
    if DeclareTypes([], ds).ok {
      TypesShow(ds);
      FuncsDeclared(g1, types, ds);
      var g2 := g1 + FuncSyms(ds);
      if DeclareFuncs(g1, ds).ok {
        VarsDeclared(g2, types, ds);
        var g3 := g2 + VarSyms(ds);
        if DeclareVars(g2, ds).ok {
          GroupedTable(ds);
          TypesDescribed(g3, types, map[], ds);
          NothingAdded(map[], DeclaredAliases(ds));
          ImplsResolved(DeclaredTable(ds), DeclaredAliases(ds), map[], ds);
          NothingAdded(map[], DeclaredProgram(ds));
          BodiesAre(DeclaredTable(ds), DeclaredAliases(ds), ds);
        }
      }
    }
    AllHeaders(types, ds);
    if NamesOk(ds) {
      DeclaredStand(ds);
      forall d | d in ds ensures BodyOk(DeclaredTable(ds), DeclaredAliases(ds), d)
                                 <==> Resolves(DeclaredTable(ds), DeclaredAliases(ds), d) {
        BodyOkIff(DeclaredTable(ds), DeclaredAliases(ds), d);
      }
    }
  }

  /** No definition of an accepted program takes the name of a built-in type. */
  lemma DeclaredStand(ds: seq<Def>)
    requires NamesOk(ds)
    ensures BuiltinsStand(DeclaredAliases(ds))
  {
    hide NamesOk;
    NamesKey(ds);
    forall x | x in DeclaredAliases(ds) ensures ScalarTy(x).None? {
      AliasesAre(ds, x);
      var d :| d in ds && d.TypeDef? && d.name == x;
      NameIsFree(ds, d);
    }
  }

  lemma NameIsFree(ds: seq<Def>, d: Def)
    requires NamesOk(ds) && d in ds
    ensures !Reserved(d.name)
  {
  }

  lemma BodyResolves(ds: seq<Def>, d: Def)
    requires Declared(ds) && d in ds && d.FuncDef? && d.body.Some?
    ensures Body(DeclaredTable(ds), DeclaredAliases(ds), d).Some?
  {
    hide BodyOk, Body, HeaderOk, NamesOk, DeclaredTable, DeclaredAliases, BuiltinsStand;
    DeclaredStand(ds);
    BodyOkIff(DeclaredTable(ds), DeclaredAliases(ds), d);
  }

  /** The function that analysis leaves for a definition is the one that is typed. */
  lemma ProgramIs(ds: seq<Def>, d: Def, ss: seq<Stmt>)
    requires Declared(ds) && d in ds && d.FuncDef? && d.body.Some?
    ensures d.name in DeclaredProgram(ds)
    ensures DeclaredProgram(ds)[d.name] == Annotated(DeclaredAliases(ds), d, ss)
            <==> BodyTyped(DeclaredTable(ds), DeclaredAliases(ds), d, ss)
  {
    hide BodyTyped, Annotated, Body, HeaderOk, NamesOk, DeclaredTable, DeclaredAliases, BuiltinsStand, BodyOk;
    var t, al := DeclaredTable(ds), DeclaredAliases(ds);
    DeclaredStand(ds);
    NamesKey(ds);
    assert BodyOk(t, al, d);
    BodyOkIff(t, al, d);
    BodiesAt(t, al, ds, d.name);
    BodyIff(t, al, d, ss);
  }

  lemma AllHeaders(types: set<string>, ds: seq<Def>)
    ensures (forall d :: d in ds ==> HeaderOk(types, d))
            <==> HeadersOk(types, ds, Types) && HeadersOk(types, ds, Funcs) && HeadersOk(types, ds, Vars)
  {
    hide HeaderOk, HeadersOk;
    HeadersAre(types, ds, Types);
    HeadersAre(types, ds, Funcs);
    HeadersAre(types, ds, Vars);
    forall d | d in ds ensures In(d, Types) || In(d, Funcs) || In(d, Vars) {
    }
  }

  // Order

  lemma {:induction false} SymbolsCat(a: seq<Def>, b: seq<Def>)
    ensures Symbols(a + b) == Symbols(a) + Symbols(b)
  {
    if a == [] {
      assert a + b == b;
    } else {
      assert (a + b)[1..] == a[1..] + b;
      SymbolsCat(a[1..], b);
    }
  }

  lemma {:induction false} PermutedCount(ds1: seq<Def>, ds2: seq<Def>, x: string)
    requires multiset(ds1) == multiset(ds2)
    ensures Count(Symbols(ds1), x) == Count(Symbols(ds2), x)
    decreases |ds1|
  {
    if ds1 == [] {
      assert |multiset(ds1)| == |ds1| && |multiset(ds2)| == |ds2|;
    } else {
      var d := ds1[0];
      assert d in multiset(ds2);
      var i :| 0 <= i < |ds2| && ds2[i] == d;
      hide Count, Symbols;
      FirstRemoved(ds1);
      Removed(ds2, i);
      PermutedCount(ds1[1..], ds2[..i] + ds2[i + 1..], x);
      CountRemoved(ds1, 0, x);
      CountRemoved(ds2, i, x);
    }
  }

  lemma FirstRemoved(ds: seq<Def>)
    requires ds != []
    ensures ds[..0] + ds[1..] == ds[1..]
    ensures multiset(ds[1..]) == multiset(ds) - multiset{ds[0]}
  {
    assert ds == [ds[0]] + ds[1..];
    assert ds[..0] + ds[1..] == ds[1..];
  }

  lemma CountRemoved(ds: seq<Def>, i: nat, x: string)
    requires i < |ds|
    ensures Count(Symbols(ds), x) == Count(Symbols(ds[..i] + ds[i + 1..]), x) + if ds[i].name == x then 1 else 0
  {
    var a, b := ds[..i], ds[i + 1..];
    assert ds == a + ([ds[i]] + b);
    SymbolsCat(a, b);
    SymbolsCat(a, [ds[i]] + b);
    CountCat(Symbols(a), Symbols(b), x);
    CountCat(Symbols(a), Symbols([ds[i]] + b), x);
    assert ([ds[i]] + b)[1..] == b;
  }

  lemma Removed(ds: seq<Def>, i: nat)
    requires i < |ds|
    ensures multiset(ds[..i] + ds[i + 1..]) == multiset(ds) - multiset{ds[i]}
  {
    assert ds == ds[..i] + [ds[i]] + ds[i + 1..];
  }

  lemma {:induction false} AliasesAre(ds: seq<Def>, x: string)
    requires Keyed(ds)
    ensures x in DeclaredAliases(ds) <==> exists d :: d in ds && d.TypeDef? && d.name == x
    ensures forall d :: d in ds && d.TypeDef? && d.name == x ==>
              x in DeclaredAliases(ds) && DeclaredAliases(ds)[x] == TName(d.aliased)
  {
    if ds != [] {
      assert Keyed(ds[1..]);
      AliasesAre(ds[1..], x);
      assert ds == [ds[0]] + ds[1..];
    }
  }

  lemma {:induction false} BodiesAt(table: Table, al: Aliases, ds: seq<Def>, x: string)
    requires Keyed(ds)
    ensures x in Bodies(table, al, ds)
            <==> exists d :: d in ds && d.FuncDef? && d.body.Some? && d.name == x && Body(table, al, d).Some?
    ensures forall d :: d in ds && d.FuncDef? && d.body.Some? && d.name == x && Body(table, al, d).Some? ==>
              x in Bodies(table, al, ds) && Bodies(table, al, ds)[x] == Body(table, al, d).value
  {
    hide Body;
    if ds != [] {
      assert Keyed(ds[1..]);
      BodiesAt(table, al, ds[1..], x);
      assert ds == [ds[0]] + ds[1..];
    }
  }

  lemma SameMaps(ds1: seq<Def>, ds2: seq<Def>)
    requires NamesOk(ds1) && NamesOk(ds2) && forall d :: d in ds1 <==> d in ds2
    ensures DeclaredTable(ds1) == DeclaredTable(ds2)
    ensures DeclaredAliases(ds1) == DeclaredAliases(ds2)
    ensures DeclaredProgram(ds1) == DeclaredProgram(ds2)
  {
    hide Body, TableOf, Symbols, Bodies, DeclaredAliases;
    NamesAre(ds1);
    NamesAre(ds2);
    forall s ensures s in Symbols(ds1) <==> s in Symbols(ds2) {
      SymbolIn(ds1, s);
      SymbolIn(ds2, s);
    }
    SameTable(Symbols(ds1), Symbols(ds2));
    NamesKey(ds1);
    NamesKey(ds2);
    var al1, al2, t := DeclaredAliases(ds1), DeclaredAliases(ds2), DeclaredTable(ds1);
    forall x ensures (x in al1 <==> x in al2) && (x in al1 ==> al1[x] == al2[x]) {
      AliasesAre(ds1, x);
      AliasesAre(ds2, x);
    }
    assert al1 == al2;
    var p1, p2 := Bodies(t, al1, ds1), Bodies(t, al1, ds2);
    forall x ensures (x in p1 <==> x in p2) && (x in p1 ==> p1[x] == p2[x]) {
      BodiesAt(t, al1, ds1, x);
      BodiesAt(t, al1, ds2, x);
    }
  }

  /** Permuting the definitions, within a tree or across trees, changes neither acceptance nor what analysis leaves. */
  lemma OrderIndependent(ds1: seq<Def>, ds2: seq<Def>)
    requires multiset(ds1) == multiset(ds2)
    ensures Analyse(ds1) == Analyse(ds2)
  {
    hide Analyse, Count, Symbols, Reserved, ScopeOk, BodyOk, HeaderOk;
    AcceptedIff(ds1);
    AcceptedIff(ds2);
    assert NamesOk(ds1) <==> NamesOk(ds2) by {
      NamesAre(ds1);
      NamesAre(ds2);
      ScopeCounts(Symbols(ds1));
      ScopeCounts(Symbols(ds2));
      forall x ensures Count(Symbols(ds1), x) == Count(Symbols(ds2), x) {
        PermutedCount(ds1, ds2, x);
      }
    }
    forall d ensures d in ds1 <==> d in ds2 {
      assert d in multiset(ds1) <==> d in multiset(ds2);
    }
    if NamesOk(ds1) {
      SameMaps(ds1, ds2);
      assert TypeNames(ds1) == TypeNames(ds2);
    }
  }
}
