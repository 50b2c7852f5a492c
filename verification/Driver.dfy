/** The two passes, run one after the other. */
module Driver {
  import opened Ast
  import opened Raw
  import opened Sem
  import opened Acceptance
  import opened TypeAliases
  import opened LlvmGen
  import opened Pipeline
  import opened Preservation
  import opened SemAnalysis
  import C = Codegen
  import L = Lowerable
  import M = Machine
  import Sim = Simulation
  import W = WellFormed

  /** The code generator has a case for everything in the program, and no `if` of it has exactly one arm that
      exits. */
  predicate Handled(p: Program) {
    forall x :: x in p ==> L.LowersStmts(p[x].sig.ret, p[x].body)
  }

  ghost predicate Compiled(p: Program, mp: M.MProgram) {
    forall x :: x in mp ==>
      && x in p && |p[x].params| == |p[x].sig.params|
      && exists el, kl :: mp[x] == C.GenFunc(p[x], el, kl)
  }

  predicate HasBody(ds: seq<Def>, n: nat, x: string)
    requires n <= |ds|
  {
    exists i :: 0 <= i < n && ds[i].FuncDef? && ds[i].body.Some? && ds[i].name == x
  }

  lemma ProgramHas(ds: seq<Def>, a: Analysis, x: string)
    requires Analyse(ds) == Some(a)
    ensures x in a.program <==> HasBody(ds, |ds|, x)
  {
    hide Analyse, HeaderOk, ResolveImpl, DeclaredTable, DeclaredAliases;
    AcceptedIff(ds);
    NamesKey(ds);
    BodiesAt(a.table, a.aliases, ds, x);
    if HasBody(ds, |ds|, x) {
      var i :| 0 <= i < |ds| && ds[i].FuncDef? && ds[i].body.Some? && ds[i].name == x;
      BodyResolves(ds, ds[i]);
    }
    if x in a.program {
      var d :| d in ds && d.FuncDef? && d.body.Some? && d.name == x;
    }
  }

  lemma ParamsPaired(ds: seq<Def>, a: Analysis, x: string)
    requires Analyse(ds) == Some(a) && x in a.program
    ensures |a.program[x].params| == |a.program[x].sig.params|
  {
    hide Analyse, DeclaredTable, DeclaredAliases, HeaderOk, NamesOk, ResolveBlock, RExits, Under;
    AcceptedIff(ds);
    var d := FunctionIs(ds, x);
  }

  /** The code of every function with a body, definition by definition: one function's code each, whatever loop labels
      the one before left behind. */
  method GenerateLLVM(ds: seq<Def>, a: Analysis) returns (mp: M.MProgram)
    requires Analyse(ds) == Some(a)
    ensures mp.Keys == a.program.Keys && Compiled(a.program, mp)
    ensures Handled(a.program) ==> Sim.Linked(a.program, mp)
  {
    hide Analyse, C.GenFunc, L.LowersStmts;
    var ctx := new LlvmGenContext();
    mp := map[];
    var i := 0;
    while i < |ds|
      invariant 0 <= i <= |ds|
      invariant Compiled(a.program, mp) && forall x :: x in mp <==> HasBody(ds, i, x)
    {
      if ds[i].FuncDef? && ds[i].body.Some? {
        var x := ds[i].name;
        ProgramHas(ds, a, x);
        ParamsPaired(ds, a, x);
        ctx.out := [];
        ghost var el, kl := ctx.endLabel, ctx.checkLabel;
        ctx.CompileFunctionImpl(a.program[x]);
        assert ctx.out == C.GenFunc(a.program[x], el, kl);
        mp := mp[x := ctx.out];
      }
      i := i + 1;
    }
    forall x ensures x in mp <==> x in a.program {
      ProgramHas(ds, a, x);
    }
    forall x | x in a.program ensures |a.program[x].params| == |a.program[x].sig.params| {
      ParamsPaired(ds, a, x);
    }
    assert mp.Keys == a.program.Keys;
  }

  ghost predicate Compiles(a: Analysis, mp: M.MProgram) {
    && mp.Keys == a.program.Keys && Compiled(a.program, mp)
    && (forall x :: x in mp ==> (W.WellFormedCode(mp[x]) <==> W.CompilesFunc(a.program[x])))
    && (Acyclic(a.aliases) && Handled(a.program) ==> forall t :: Startable(a, t) ==> RunsAlike(mp, t))
  }

  /** From the definitions of a program to its machine code: there is code exactly if the program is accepted. The code
      of a function is well formed exactly if its tree passes the check, and if aliases do not run in circles and the
      generator can handle all of the program, every call of the code behaves as its source. */
  method Compile(ds: seq<Def>) returns (r: Option<M.MProgram>)
    ensures r.Some? <==> Declared(ds)
    ensures r.Some? ==> Analyse(ds).Some? && Compiles(Analyse(ds).value, r.value)
  {
    hide Analyse, Acyclic, Handled, Sim.Linked, Startable, RunsAlike, Declared, W.WellFormedCode, W.CompilesFunc,
      C.GenFunc;
    var ctx := new SemAnalysisCtx();
    var a := ctx.AnalyseDefinitions(ds);
    AcceptedIff(ds);
    if a.None? {
      return None;
    }
    var mp := GenerateLLVM(ds, a.value);
    forall x | x in mp ensures W.WellFormedCode(mp[x]) <==> W.CompilesFunc(a.value.program[x]) {
      var el, kl :| mp[x] == C.GenFunc(a.value.program[x], el, kl);
      AcceptedWellFormed(ds, a.value, x, el, kl);
    }
    if Acyclic(a.value.aliases) && Handled(a.value.program) {
      forall t | Startable(a.value, t) ensures RunsAlike(mp, t) {
        AcceptedRunsAlike(ds, a.value, mp, t);
      }
    }
    r := Some(mp);
  }
}
