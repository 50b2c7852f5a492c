/** Programs that analysis accepts and that still go wrong: in the code that is emitted, or when they are run. */
module Witnesses {
  import opened Ints
  import opened Ast
  import opened Raw
  import opened Sem
  import opened Acceptance
  import opened TypeAliases
  import opened Meaning
  import opened Pipeline
  import opened Preservation
  import opened Typing
  import C = Codegen
  import L = Lowerable
  import M = Machine
  import S = Source
  import Shape
  import W = WellFormed

  // A program around a body: a global variable, a function that does nothing, and the function with the body

  const GLOBAL := GlobalDef("x", "int", 0)
  const NOTHING := FuncDef("g", [], "void", Some([]))

  function Around(body: seq<RStmt>): seq<Def> {
    [GLOBAL, NOTHING, FuncDef("f", [], "void", Some(body))]
  }

  function TableAround(): Table {
    map["x" := KVar(TName("int"), 0), "g" := KFunc([], VOID), "f" := KFunc([], VOID)]
  }

  function Procedure(name: string, body: seq<Stmt>): Func {
    Func(Sig(name, [], Void), [], [], body)
  }

  function ProgramAround(body: seq<Stmt>): Program {
    map["g" := Procedure("g", []), "f" := Procedure("f", body)]
  }

  function AnalysisAround(body: seq<Stmt>): Analysis {
    Analysis(TableAround(), map[], ProgramAround(body))
  }

  /** What a body sees when it starts. */
  function NamesAround(): Names {
    Names(TableAround(), map[], [[]])
  }

  lemma NamesAreOk(body: seq<RStmt>)
    ensures NamesOk(Around(body))
  {
    assert "x" != "g" && "x" != "f" && "g" != "f";
    assert !Reserved("x") && !Reserved("g") && !Reserved("f");
  }

  lemma HeadersAreOk(body: seq<RStmt>)
    ensures forall d :: d in Around(body) ==> HeaderOk(TypeNames(Around(body)), d)
  {
    hide TypeNames;
  }

  lemma TableIsAround(body: seq<RStmt>)
    ensures DeclaredTable(Around(body)) == TableAround()
  {
    hide TableOf, Symbols, NamesOk, Reserved, ScopeOk;
    var ds := Around(body);
    var t := DeclaredTable(ds);
    NamesAreOk(body);
    NamesAre(ds);
    SymbolsAt(ds);
    forall x ensures x in t <==> exists i :: 0 <= i < 3 && ds[i].name == x {
      TableIs(Symbols(ds), x);
    }
    forall i | 0 <= i < 3 ensures t[ds[i].name] == KindOf(ds[i]) {
      TableIs(Symbols(ds), ds[i].name);
      assert Symbols(ds)[i].name == ds[i].name;
    }
    assert ds[0].name in t && ds[1].name in t && ds[2].name in t;
  }

  lemma NoAliases(body: seq<RStmt>)
    ensures DeclaredAliases(Around(body)) == map[]
  {
    hide DeclaredAliases, NamesOk;
    NamesAreOk(body);
    NamesKey(Around(body));
    forall x ensures x !in DeclaredAliases(Around(body)) {
      AliasesAre(Around(body), x);
    }
  }

  /** The program is accepted, and `f` is what its body was resolved to. */
  ghost predicate AcceptedAs(raw: seq<RStmt>, body: seq<Stmt>) {
    && Accepted(Around(raw), AnalysisAround(body))
    && AnalysisAround(body).program["f"] == Procedure("f", body)
  }

  /** The first call of `f`. */
  function CallOf(body: seq<Stmt>, g: S.Glob): Start {
    Start(ProgramAround(body), Sig("f", [], Void), [], g)
  }

  /** If the body resolves, the program is accepted and holds what the body was resolved to. */
  lemma Accepts(raw: seq<RStmt>, body: seq<Stmt>)
    requires ResolveBlock(NamesAround(), VOID, 0, raw).stmts == Some(body)
    ensures AcceptedAs(raw, body)
  {
    hide Analyse, ResolveBlock, Under, HeaderOk, NamesOk, BodyOk, DeclaredTable, DeclaredAliases, Bodies, Body;
    var ds := Around(raw);
    var f := FuncDef("f", [], "void", Some(raw));
    NamesAreOk(raw);
    HeadersAreOk(raw);
    TableIsAround(raw);
    NoAliases(raw);
    AcceptedIff(ds);
    var t := TableAround();
    BodyAround(raw, body);
    assert GLOBAL in ds && NOTHING in ds && f in ds;
    forall d | d in ds ensures BodyOk(t, map[], d) {
      BodyOkIff(t, map[], d);
    }
    var p := Bodies(t, map[], ds);
    NamesKey(ds);
    forall x ensures (x in p <==> x in ProgramAround(body)) && (x in p ==> p[x] == ProgramAround(body)[x]) {
      BodiesAt(t, map[], ds, x);
    }
    assert p == ProgramAround(body);
  }

  lemma BodyAround(raw: seq<RStmt>, body: seq<Stmt>)
    requires ResolveBlock(NamesAround(), VOID, 0, raw).stmts == Some(body)
    ensures Body(TableAround(), map[], NOTHING) == Some(Procedure("g", []))
    ensures Body(TableAround(), map[], FuncDef("f", [], "void", Some(raw))) == Some(Procedure("f", body))
  {
    hide ResolveBlock, ParamScope, ParamNames, ParamNodes, Unders, Under, RExits, TypesOf;
    NoParams();
    ResolvesNone(NamesAround(), 0);
  }

  lemma NoParams()
    ensures TypesOf([]) == [] && ParamScope([], []) == [] && Unders(map[], []) == [] && ParamNames([]) == []
    ensures ParamNodes([]) == []
    ensures Under(map[], VOID) == Void
  {
  }

  lemma ResolvesNone(c: Names, level: nat)
    requires c.locals != []
    ensures ResolveBlock(c, VOID, level, []).stmts == Some([])
  {
  }

  lemma ResolvesOne(c: Names, level: nat, s: RStmt)
    requires c.locals != []
    ensures var r := ResolveStmt(c, VOID, level, s);
            ResolveBlock(c, VOID, level, [s]).stmts == if r.stmt.Some? then Some([r.stmt.value]) else None
  {
    hide ResolveStmt;
    assert [s][1..] == [];
    var r := ResolveStmt(c, VOID, level, s);
    ResolvesNone(c.(locals := r.locals), level);
    if r.stmt.Some? {
      assert [r.stmt.value] + [] == [r.stmt.value];
    }
  }

  lemma ResolvesTwo(c: Names, level: nat, s: RStmt, s': RStmt)
    requires c.locals != [] && ResolveStmt(c, VOID, level, s).locals == c.locals
    ensures var r, r' := ResolveStmt(c, VOID, level, s), ResolveStmt(c, VOID, level, s');
            ResolveBlock(c, VOID, level, [s, s']).stmts
            == if r.stmt.Some? && r'.stmt.Some? then Some([r.stmt.value, r'.stmt.value]) else None
  {
    hide ResolveStmt;
    ResolvesOne(c, level, s');
    assert [s, s'][1..] == [s'];
    var r, r' := ResolveStmt(c, VOID, level, s), ResolveStmt(c, VOID, level, s');
    assert c.(locals := r.locals) == c;
    if r.stmt.Some? && r'.stmt.Some? {
      assert [r.stmt.value] + [r'.stmt.value] == [r.stmt.value, r'.stmt.value];
    }
  }

  // The two ways to emit ill-formed code

  const ZERO := RInt(0)
  const IS_ZERO := RCompar(false, Eq, ZERO, ZERO)
  const CLEAR := RAssign("x", ZERO)

  /** Analysis accepts the `if` with one exiting arm, and its code has a branch to a label that is placed nowhere. */
  lemma OneArmAccepted(el: nat, kl: nat)
    ensures AcceptedAs([RIfElse(IS_ZERO, [CLEAR], [RReturn]), CLEAR], W.OneArm().body)
    ensures W.OneArm() == Procedure("f", W.OneArm().body)
    ensures var code := C.GenFunc(W.OneArm(), el, kl);
            W.InstrsOk(code) && exists l :: W.Targets(code, l) && Shape.Count(code, l) == 0
  {
    hide ResolveExp, ResolveCond, C.GenFunc, W.InstrsOk, W.Targets, Shape.Count, AcceptedAs;
    var c := NamesAround();
    var inner := c.(locals := c.locals + [[]]);
    var raw := RIfElse(IS_ZERO, [CLEAR], [RReturn]);
    ClearResolves(c);
    ClearResolves(inner);
    ResolvesOne(inner, 0, CLEAR);
    ResolvesOne(inner, 0, RReturn);
    ResolvesTwo(c, 0, raw, CLEAR);
    Accepts([raw, CLEAR], W.OneArm().body);
    W.OneArmExits(el, kl);
  }

  /** Analysis accepts code after a break, and the block that it is compiled into runs into a label. */
  lemma AfterBreakAccepted(el: nat, kl: nat)
    ensures AcceptedAs([RWhile(IS_ZERO, [RBreak, CLEAR])], W.AfterBreak().body)
    ensures W.AfterBreak() == Procedure("f", W.AfterBreak().body)
    ensures var code := C.GenFunc(W.AfterBreak(), el, kl);
            W.InstrsOk(code) && W.TargetsPlaced(code) && !W.Terminated(code) && W.FlowOf(code, W.Open) == W.Bad
  {
    hide ResolveExp, ResolveCond, C.GenFunc, W.InstrsOk, W.TargetsPlaced, W.FlowOf, AcceptedAs;
    var c := NamesAround();
    var inner := c.(locals := c.locals + [[]]);
    var raw := RWhile(IS_ZERO, [RBreak, CLEAR]);
    ClearResolves(c);
    ClearResolves(inner);
    ResolvesTwo(inner, 1, RBreak, CLEAR);
    ResolvesOne(c, 0, raw);
    Accepts([raw], W.AfterBreak().body);
    W.CodeAfterBreak(el, kl);
  }

  lemma ClearResolves(c: Names)
    requires c == NamesAround() || c == NamesAround().(locals := [[], []])
    ensures ResolveCond(c, IS_ZERO) == Some(W.IS_ZERO)
    ensures ResolveExp(c, ZERO) == Some(W.ZERO)
    ensures ResolveVar(c, "x") == Some(VarRef(TName("int"), VarDefinition(0))) && Under(map[], TName("int")) == Int
  {
    SeenAround(c, "x");
  }

  /** A body sees the global scope at its start and at the start of a block in it. */
  lemma SeenAround(c: Names, x: string)
    requires c == NamesAround() || c == NamesAround().(locals := [[], []])
    requires x in TableAround()
    ensures Lookup(c, x) == Some(TableAround()[x])
  {
    hide TableAround;
    var none := NamesAround().(locals := []);
    assert Lookup(none, x) == Some(TableAround()[x]);
    var one: seq<Scope>, two: seq<Scope> := [[]], [[], []];
    assert one[..0] == [] && two[..1] == one;
    assert Find([], x).None?;
    assert Lookup(NamesAround(), x) == Lookup(none, x);
  }

  // Trees that the generator has no case for

  const NOT_ZERO := Assign("x", Int, VarDefinition(0), Unary(BitNot, W.ZERO, Int))
  const SIXTY_FIVE := IntLit(65, Int)
  const ECHO_CHAR := Echo(Cast(SIXTY_FIVE, "char", Char))
  const ECHO_NOTHING := Echo(Call(Sig("g", [], Void), []))

  /** The code of `f` around the code of the one statement of its body. */
  lemma CodeOfOne(s: Stmt, el: nat, kl: nat)
    requires !StmtExits(s)
    ensures C.GenFunc(Procedure("f", [s]), el, kl)
            == C.GenStmt(Void, el, kl, [], C.Ctr(0, 0), s).code + [M.RetVoid]
  {
    hide C.GenStmt, StmtExits, L.Stops;
    var f := Procedure("f", [s]);
    var g := C.GenStmt(Void, el, kl, [], C.Ctr(0, 0), s);
    L.StopsIs(Void, el, kl, [], C.Ctr(0, 0), s);
    assert C.ParamLocals([], [], 0) == [];
    assert C.GenBlock(Void, el, kl, [], C.Ctr(0, 0), [s]).code == g.code by {
      var r := C.GenStmts(Void, el, kl, g.ls, g.c, [s][1..]);
      assert r.code == [] && g.code + [] == g.code;
    }
    assert !Exits([s]) by {
      assert [s][1..] == [] && !Exits([]);
    }
    assert |"f"| != |"main"|;
    assert [] + [] + g.code + [M.RetVoid] == g.code + [M.RetVoid];
  }

  /** A call of `f` stops as the one statement of its body does. */
  lemma RunOfOne(s: Stmt, fuel: nat, g: S.Glob)
    requires fuel > 0
    ensures var p := ProgramAround([s]);
            var r := S.ExecStmt(fuel - 1, p, Void, [[]], [], g, s);
            r.Halt? ==> Source(CallOf([s], g), fuel) == S.Stop(r.why)
  {
    hide S.ExecStmt, S.ParamScope;
    var p := ProgramAround([s]);
    var f := p["f"];
    assert f == Procedure("f", [s]) && "f" in p;
    assert [S.ParamScope([])] == [[]] by { NoBindings(); }
    assert S.ArgsMatch([], f.sig.params) && Distinct(f.params);
    var r := S.ExecStmts(fuel - 1, p, Void, [[]], [], g, [s]);
    assert r.Halt? ==> S.CallFn(fuel, p, f.sig, [], g) == S.Stop(r.why);
    var one := S.ExecStmt(fuel - 1, p, Void, [[]], [], g, s);
    assert one.Halt? ==> r == one;
  }

  lemma NoBindings()
    ensures S.ParamScope([]) == []
  {
  }

  /** `x = ~0;` is accepted and reaches the assertion of the generator: the model's `Unreachable`. */
  lemma BitwiseNotAccepted(el: nat, kl: nat)
    ensures AcceptedAs([RAssign("x", RUnary(BitNot, ZERO))], [NOT_ZERO])
    ensures M.Unreachable in C.GenFunc(Procedure("f", [NOT_ZERO]), el, kl)
  {
    hide AcceptedAs, C.GenFunc, Lookup, C.GenStmt;
    var c := NamesAround();
    ClearResolves(c);
    ResolvesOne(c, 0, RAssign("x", RUnary(BitNot, ZERO)));
    Accepts([RAssign("x", RUnary(BitNot, ZERO))], [NOT_ZERO]);
    CodeOfOne(NOT_ZERO, el, kl);
    NotZeroCode(el, kl);
  }

  lemma NotZeroCode(el: nat, kl: nat)
    ensures M.Unreachable in C.GenStmt(Void, el, kl, [], C.Ctr(0, 0), NOT_ZERO).code
  {
    assert C.GenStmt(Void, el, kl, [], C.Ctr(0, 0), NOT_ZERO).code[0] == M.Unreachable;
  }

  /** `echo 65 as char;` is accepted, reaches the same assertion, and has no meaning when it is run. */
  lemma CastToCharAccepted(el: nat, kl: nat, fuel: nat, g: S.Glob)
    requires fuel > 0
    ensures AcceptedAs([REcho(RCast(RInt(65), "char"))], [ECHO_CHAR])
    ensures M.Unreachable in C.GenFunc(Procedure("f", [ECHO_CHAR]), el, kl)
    ensures Source(CallOf([ECHO_CHAR], g), fuel) == S.Stop(S.Wrong)
  {
    hide AcceptedAs, C.GenFunc, C.GenStmt, Source, S.ExecStmt, ResolveBlock;
    var c := NamesAround();
    CastResolves(c);
    ResolvesOne(c, 0, REcho(RCast(RInt(65), "char")));
    Accepts([REcho(RCast(RInt(65), "char"))], [ECHO_CHAR]);
    CodeOfOne(ECHO_CHAR, el, kl);
    CastCode(el, kl);
    CastRuns(fuel - 1, ProgramAround([ECHO_CHAR]), g);
    RunOfOne(ECHO_CHAR, fuel, g);
  }

  lemma CastResolves(c: Names)
    requires c == NamesAround()
    ensures ResolveStmt(c, VOID, 0, REcho(RCast(RInt(65), "char"))).stmt == Some(ECHO_CHAR)
  {
    hide Lookup, Under;
    CharIsSeen(c);
    assert ResolveExp(c, RInt(65)) == Some(SIXTY_FIVE);
  }

  lemma CharIsSeen(c: Names)
    requires c == NamesAround()
    ensures FindType(c, "char") == Some(TName("char")) && Under(map[], TName("char")) == Char
  {
    var none := c.(locals := []);
    assert c.(locals := c.locals[..0]) == none;
    assert "char" !in c.table;
    assert Lookup(none, "char") == Some(KType);
  }

  lemma CastCode(el: nat, kl: nat)
    ensures M.Unreachable in C.GenStmt(Void, el, kl, [], C.Ctr(0, 0), ECHO_CHAR).code
  {
    assert C.GenExp([], C.Ctr(0, 0), Cast(SIXTY_FIVE, "char", Char), Char).code[0] == M.Unreachable;
  }

  lemma SixtyFiveFits()
    ensures InRange(32, 65)
  {
    Pow2Of31();
  }

  lemma CastRuns(fuel: nat, p: Program, g: S.Glob)
    ensures S.ExecStmt(fuel, p, Void, [[]], [], g, ECHO_CHAR) == S.Halt(S.Wrong)
  {
    hide InRange;
    SixtyFiveFits();
    assert S.EvalExp(fuel, p, [[]], [], g, SIXTY_FIVE) == S.Ok(S.Val(Int, 65), g);
    CharOfInteger(fuel, p, [[]], [], g, SIXTY_FIVE, "char");
  }

  /** `echo g();` with `g` void is accepted, reaches the same assertion, and has no meaning either. */
  lemma VoidValueAccepted(el: nat, kl: nat, fuel: nat, g: S.Glob)
    requires fuel > 1
    ensures AcceptedAs([REcho(RCall("g", []))], [ECHO_NOTHING])
    ensures M.Unreachable in C.GenFunc(Procedure("f", [ECHO_NOTHING]), el, kl)
    ensures Source(CallOf([ECHO_NOTHING], g), fuel) == S.Stop(S.Wrong)
  {
    hide AcceptedAs, C.GenFunc, C.GenStmt, Source, S.ExecStmt, ResolveBlock;
    var c := NamesAround();
    CallResolves(c);
    ResolvesOne(c, 0, REcho(RCall("g", [])));
    Accepts([REcho(RCall("g", []))], [ECHO_NOTHING]);
    CodeOfOne(ECHO_NOTHING, el, kl);
    CallCode(el, kl);
    CallRuns(fuel - 1, [ECHO_NOTHING], g);
    RunOfOne(ECHO_NOTHING, fuel, g);
  }

  lemma CallResolves(c: Names)
    requires c == NamesAround()
    ensures ResolveStmt(c, VOID, 0, REcho(RCall("g", []))).stmt == Some(ECHO_NOTHING)
  {
    hide Lookup, Under, Unders;
    SeenAround(c, "g");
    NoParams();
  }

  lemma CallCode(el: nat, kl: nat)
    ensures M.Unreachable in C.GenStmt(Void, el, kl, [], C.Ctr(0, 0), ECHO_NOTHING).code
  {
    var e := Call(Sig("g", [], Void), []);
    var call := C.GenExp([], C.Ctr(0, 0), e, Void);
    var k := C.GenConversion(call.c, Void, call.v, Long);
    assert k.code == [M.Unreachable];
    var code := C.EchoCode(call, Void).code;
    assert code == call.code + k.code + [M.EchoRt(M.IntegerKind, k.v)];
    assert code[|call.code|] == M.Unreachable;
  }

  lemma CallRuns(fuel: nat, body: seq<Stmt>, g: S.Glob)
    requires fuel > 0
    ensures S.ExecStmt(fuel, ProgramAround(body), Void, [[]], [], g, ECHO_NOTHING) == S.Halt(S.Wrong)
  {
    var p := ProgramAround(body);
    var sig := Sig("g", [], Void);
    assert S.CallFn(fuel, p, sig, [], g) == S.Ok(None, g) by { NothingRuns(fuel, body, g); }
    assert S.EvalArgs(fuel, p, [[]], [], g, [], []) == S.Ok([], g);
  }

  lemma NothingRuns(fuel: nat, body: seq<Stmt>, g: S.Glob)
    requires fuel > 0
    ensures S.CallFn(fuel, ProgramAround(body), Sig("g", [], Void), [], g) == S.Ok(None, g)
  {
    var p := ProgramAround(body);
    assert p["g"] == Procedure("g", []);
  }
}
