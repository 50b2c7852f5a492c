/** Both passes together: what analysis accepts and the code generator can handle runs as the source says. */
module Pipeline {
  import opened Ast
  import opened Raw
  import opened Sem
  import opened Acceptance
  import opened TypeAliases
  import opened Meaning
  import opened ReturnPaths
  import opened Typing
  import opened TypeSafety
  import opened Preservation
  import C = Codegen
  import L = Lowerable
  import M = Machine
  import Sim = Simulation
  import S = Source
  import W = WellFormed

  /** The program is accepted and its aliases do not run in circles. */
  ghost predicate Accepted(ds: seq<Def>, a: Analysis) {
    Analyse(ds) == Some(a) && Acyclic(a.aliases)
  }

  function GlobalNames(a: Analysis): map<string, Entity> {
    GlobalsOf(a.table, a.aliases)
  }

  // No symbol of an accepted program has the error type

  lemma TypeIsClean(ds: seq<Def>, x: string)
    requires Declared(ds) && Acyclic(DeclaredAliases(ds)) && IsType(TypeNames(ds), x)
    ensures !Under(DeclaredAliases(ds), TName(x)).Err?
  {
    hide Declared, Under;
    TypesHaveMeaning(ds);
  }

  lemma DefIsClean(ds: seq<Def>, d: Def)
    requires Declared(ds) && Acyclic(DeclaredAliases(ds)) && d in ds
    ensures CleanKind(DeclaredAliases(ds), KindOf(d))
  {
    hide DeclaredAliases, DeclaredTable, Under, BodyOk, TypeNames;
    var types := TypeNames(ds);
    assert HeaderOk(types, d);
    match d
    case TypeDef(_, _) =>
    case GlobalDef(_, t, _) => TypeIsClean(ds, t);
    case FuncDef(_, ps, ret, _) =>
      TypeIsClean(ds, ret);
      forall i | 0 <= i < |ps| ensures !Under(DeclaredAliases(ds), TName(ps[i].tname)).Err? {
        assert ParamOk(types, ps, i);
        TypeIsClean(ds, ps[i].tname);
      }
  }

  lemma EntryOfTable(ds: seq<Def>, x: string) returns (d: Def)
    requires Declared(ds) && x in DeclaredTable(ds)
    ensures d in ds && d.name == x && DeclaredTable(ds)[x] == KindOf(d)
  {
    hide HeaderOk, BodyOk, NamesOk, ScopeOk, TableOf;
    NamesAre(ds);
    var g := Symbols(ds);
    TableIs(g, x);
    var i :| 0 <= i < |g| && g[i].name == x;
    SymbolsAt(ds);
    d := ds[i];
  }

  lemma TableHas(ds: seq<Def>, d: Def)
    requires Declared(ds) && d in ds
    ensures d.name in DeclaredTable(ds) && DeclaredTable(ds)[d.name] == KindOf(d)
  {
    hide HeaderOk, BodyOk, NamesOk, ScopeOk, TableOf;
    NamesAre(ds);
    var i :| 0 <= i < |ds| && ds[i] == d;
    SymbolsAt(ds);
    TableIs(Symbols(ds), d.name);
  }

  lemma TableIsClean(ds: seq<Def>)
    requires Declared(ds) && Acyclic(DeclaredAliases(ds))
    ensures CleanTable(DeclaredTable(ds), DeclaredAliases(ds))
  {
    hide Declared, DeclaredAliases, DeclaredTable, Under, CleanKind, Acyclic, Reserved, TypeNames;
    var t, al := DeclaredTable(ds), DeclaredAliases(ds);
    forall x | x in t ensures CleanKind(al, t[x]) && !Reserved(x) {
      var d := EntryOfTable(ds, x);
      DefIsClean(ds, d);
      NotReserved(ds, d);
    }
    forall x | x in t && t[x].KType? ensures !Under(al, TName(x)).Err? {
      var d := EntryOfTable(ds, x);
      InTypeNames(ds, d);
      TypeIsClean(ds, x);
    }
    forall x | x in al ensures !Reserved(x) {
      AliasNames(ds, x);
    }
  }

  lemma NotReserved(ds: seq<Def>, d: Def)
    requires Declared(ds) && d in ds
    ensures !Reserved(d.name)
  {
    hide HeaderOk, BodyOk;
  }

  lemma InTypeNames(ds: seq<Def>, d: Def)
    requires d in ds && d.TypeDef?
    ensures d.name in TypeNames(ds)
  {
  }

  // Accepted functions are typed

  lemma FunctionIs(ds: seq<Def>, x: string) returns (d: Def)
    requires Declared(ds) && x in DeclaredProgram(ds)
    ensures d in ds && d.FuncDef? && d.body.Some? && d.name == x
    ensures Body(DeclaredTable(ds), DeclaredAliases(ds), d) == Some(DeclaredProgram(ds)[x])
  {
    hide HeaderOk, Body, DeclaredTable, DeclaredAliases;
    var t, al := DeclaredTable(ds), DeclaredAliases(ds);
    NamesKey(ds);
    BodiesAt(t, al, ds, x);
    d :| d in ds && d.FuncDef? && d.body.Some? && d.name == x && Body(t, al, d).Some?;
  }

  /** What holds of the body of any accepted function, whatever its aliases. */
  predicate BodyShape(a: Analysis, f: Func) {
    && |f.params| == |f.sig.params| == |f.nodes|
    && StmtsOk(BodyGamma(GlobalNames(a), f), f.sig.ret, f.body)
    && L.AllInLoops(f.body, false) && (f.sig.ret.Void? || Exits(f.body))
  }

  lemma BodyIsTyped(ds: seq<Def>, a: Analysis, x: string) returns (d: Def)
    requires Analyse(ds) == Some(a) && x in a.program
    ensures d in ds && d.FuncDef? && d.body.Some? && d.name == x
    ensures a.program[x] == Annotated(a.aliases, d, a.program[x].body) && BodyShape(a, a.program[x])
  {
    hide Analyse, Declared, DeclaredAliases, DeclaredTable, Body, Under, StmtsOk, L.AllInLoops, Exits, BuiltinsStand;
    AcceptedIff(ds);
    d := FunctionIs(ds, x);
    StandsFor(ds);
    BodyIff(a.table, a.aliases, d, a.program[x].body);
    VoidStands(a.aliases);
  }

  lemma StandsFor(ds: seq<Def>)
    requires Declared(ds)
    ensures BuiltinsStand(DeclaredAliases(ds))
  {
    hide NamesOk, HeaderOk, BodyOk, BuiltinsStand, DeclaredAliases;
    DeclaredStand(ds);
  }

  lemma ParamNamesDistinct(types: set<string>, ps: seq<Param>)
    requires ParamsOk(types, ps)
    ensures Distinct(ParamNames(ps))
  {
    forall i, j | 0 <= i < j < |ps| ensures ParamNames(ps)[i] != ParamNames(ps)[j] {
      assert ParamOk(types, ps, j);
    }
  }

  lemma FunctionIsTyped(ds: seq<Def>, a: Analysis, x: string)
    requires Accepted(ds, a) && x in a.program
    ensures a.program[x].sig.name == x && FuncTyped(GlobalNames(a), a.program[x])
  {
    hide Analyse, DeclaredAliases, DeclaredTable, Under, StmtsOk, L.AllInLoops, Exits, ResolveBlock, RExits, Acyclic,
      TypeNames, Reserved;
    AcceptedIff(ds);
    var d := BodyIsTyped(ds, a, x);
    TableIsClean(ds);
    TableHas(ds, d);
    assert HeaderOk(TypeNames(ds), d);
    ParamNamesDistinct(TypeNames(ds), d.params);
    TypeIsClean(ds, d.ret);
  }

  // Runs

  /** A call that the outside can make: arguments and global variables have the declared types. */
  ghost predicate Startable(a: Analysis, t: Start) {
    && t.p == a.program && t.sig.name in t.p && t.p[t.sig.name].sig == t.sig
    && S.ArgsMatch(t.vals, t.sig.params) && GlobFits(GlobalNames(a), t.g)
  }

  predicate Compilable(p: Program) {
    forall x :: x in p ==> L.CompilesStmts(p[x].sig.ret, p[x].body)
  }

  /** What the generator has cases for has a meaning. */
  lemma CompilableMeans(ds: seq<Def>, a: Analysis)
    requires Analyse(ds) == Some(a) && Compilable(a.program)
    ensures Meaningful(a.program)
  {
    hide Analyse, StmtsOk, L.CompilesStmts, L.AllInLoops, Exits, MeantStmts;
    forall x | x in a.program ensures MeantStmts(a.program[x].body) {
      var d := BodyIsTyped(ds, a, x);
      var f := a.program[x];
      CompiledStmts(BodyGamma(GlobalNames(a), f), f.sig.ret, f.body);
    }
  }

  /** A body of an accepted program that ends has returned a value of the type of its function, unless that is void,
      and in no run of it is a break or a continue left outside a loop. */
  lemma AcceptedReturns(ds: seq<Def>, a: Analysis, x: string, fuel: nat, env: S.Env, store: seq<S.Value>, g: S.Glob)
    requires Analyse(ds) == Some(a) && x in a.program
    ensures var f := a.program[x];
            ReturnsAs(S.ExecStmts(fuel, a.program, f.sig.ret, env, store, g, f.body), f.sig.ret)
  {
    hide Analyse, StmtsOk, L.AllInLoops, Exits, S.ExecStmts, ReturnsAs;
    var d := BodyIsTyped(ds, a, x);
    var f := a.program[x];
    BodyReturns(fuel, BodyGamma(GlobalNames(a), f), a.program, f.sig.ret, env, store, g, f.body);
  }

  lemma NamesAreKnown(ds: seq<Def>, a: Analysis)
    requires Accepted(ds, a)
    ensures NoErrors(Gamma(GlobalNames(a), []))
  {
    hide Analyse, Declared, DeclaredTable, DeclaredAliases, CleanTable, NoErrors, Acyclic;
    AcceptedIff(ds);
    TableIsClean(ds);
    GlobalsKnown(a.table, a.aliases);
  }

  lemma ResultIsKnown(globals: map<string, Entity>, f: Func)
    requires FuncTyped(globals, f)
    ensures !f.sig.ret.Err?
  {
    hide StmtsOk, L.AllInLoops, Exits;
  }

  /** No run of an accepted program that has a meaning goes wrong. */
  lemma AcceptedNeverWrong(ds: seq<Def>, a: Analysis, t: Start)
    requires Accepted(ds, a) && Meaningful(a.program) && Startable(a, t)
    ensures NeverWrong(t)
  {
    hide Accepted, FuncTyped, MeantStmts, S.CallFn, GlobFits, Globals, NoErrors;
    forall x | x in t.p ensures t.p[x].sig.name == x && FuncOk(GlobalNames(a), t.p[x]) {
      FunctionIsTyped(ds, a, x);
    }
    NamesAreKnown(ds, a);
    assert !t.sig.ret.Err? by { ResultIsKnown(GlobalNames(a), t.p[t.sig.name]); }
    forall fuel: nat ensures Source(t, fuel) != S.Stop(S.Wrong) {
      SafeCall(fuel, Gamma(GlobalNames(a), []), t.p, t.sig, t.vals, t.g);
    }
  }

  /** The global variables as a module defines them: zero. */
  function InitialGlobals(a: Analysis): map<string, S.Value> {
    var gs := GlobalNames(a);
    map x | x in gs && gs[x].EVar? && IsValueTy(gs[x].t) :: S.MkValue(gs[x].t, 0)
  }

  /** A function without parameters can be called first, and finds every global variable at zero. */
  lemma FirstCall(ds: seq<Def>, a: Analysis, x: string, answers: seq<int>)
    requires Accepted(ds, a) && x in a.program && a.program[x].params == []
    ensures Startable(a, Start(a.program, a.program[x].sig, [], S.Glob(InitialGlobals(a), [], answers)))
    ensures forall y :: y in InitialGlobals(a) ==> InitialGlobals(a)[y] == S.MkValue(GlobalNames(a)[y].t, 0)
  {
    hide Accepted;
    FunctionIsTyped(ds, a, x);
  }

  ghost predicate RunsAlike(mp: M.MProgram, t: Start) {
    && (forall st: M.Status :: st.Finished? ==>
          ((exists n :: Target(mp, t, n) == st) <==> exists v, g' :: SourceEnds(t, v, g') && Image(v, g') == st))
    && (forall ev :: (exists n :: Target(mp, t, n) == M.Trapped(ev)) <==> SourceTraps(t, ev))
    && ((forall n :: Target(mp, t, n).Running?) <==> SourceRunsForever(t))
    && (forall n :: Target(mp, t, n) != M.Stuck)
  }

  /** Every accepted program that the code generator can handle behaves as its source: it ends with the same result,
      the same global variables and the same output, or traps after the same output, or runs forever, and the
      machine is never stuck. */
  lemma AcceptedRunsAlike(ds: seq<Def>, a: Analysis, mp: M.MProgram, t: Start)
    requires Accepted(ds, a) && Sim.Linked(a.program, mp) && Startable(a, t)
    ensures RunsAlike(mp, t)
  {
    hide Accepted, Analyse, Target, SourceEnds, Image, SourceTraps, SourceRunsForever, NeverWrong, L.CompilesStmts,
      L.NoMixedIfs;
    assert Analyse(ds) == Some(a) by { AcceptedIs(ds, a); }
    CompilableMeans(ds, a);
    AcceptedNeverWrong(ds, a, t);
    hide Sim.Linked, Startable;
    StartableIs(a, t);
    forall st: M.Status | st.Finished?
      ensures (exists n :: Target(mp, t, n) == st) <==> exists v, g' :: SourceEnds(t, v, g') && Image(v, g') == st
    {
      EndsAlike(mp, t, st);
    }
    forall ev ensures (exists n :: Target(mp, t, n) == M.Trapped(ev)) <==> SourceTraps(t, ev) {
      TrapsAlike(mp, t, ev);
    }
    RunsForeverAlike(mp, t);
    forall n ensures Target(mp, t, n) != M.Stuck {
      NeverStuck(mp, t, n);
    }
  }

  lemma AcceptedIs(ds: seq<Def>, a: Analysis)
    requires Accepted(ds, a)
    ensures Analyse(ds) == Some(a)
  {
    hide Analyse, Acyclic;
  }

  lemma StartableIs(a: Analysis, t: Start)
    requires Startable(a, t)
    ensures t.p == a.program && t.sig.name in t.p
  {
  }

  /** The code of an accepted function is well formed exactly when its tree is one that the code generator can
      handle. */
  lemma AcceptedWellFormed(ds: seq<Def>, a: Analysis, x: string, el: nat, kl: nat)
    requires Analyse(ds) == Some(a) && x in a.program
    ensures |a.program[x].params| == |a.program[x].sig.params|
    ensures W.WellFormedCode(C.GenFunc(a.program[x], el, kl)) <==> W.CompilesFunc(a.program[x])
  {
    hide Analyse, W.WellFormedCode, W.CompilesFunc, C.GenFunc, StmtsOk, L.AllInLoops, Exits;
    var d := BodyIsTyped(ds, a, x);
    W.WellFormedIff(a.program[x], el, kl);
  }
}
