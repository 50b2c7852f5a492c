/** The code that is emitted for each construct, as a function of the counters and the locals in scope. */
module Codegen {
  import opened Ast
  import opened Machine

  /** A variable with a stack cell; `slot` is the temporary that holds the address of the cell. */
  datatype Local = Local(name: string, t: Ty, slot: nat)

  /** The next free temporary and the next free label. */
  datatype Ctr = Ctr(loc: nat, lab: nat)

  datatype ExpGen = ExpGen(code: Code, v: Operand, c: Ctr)
  datatype ArgsGen = ArgsGen(code: Code, vs: seq<CallArg>, c: Ctr)
  datatype CodeGen = CodeGen(code: Code, c: Ctr)
  datatype StmtGen = StmtGen(code: Code, c: Ctr, ls: seq<Local>, stop: bool)

  /** The last local added under a name hides the others. */
  function FindLocal(ls: seq<Local>, x: string): Option<Local> {
    if ls == [] then None
    else if ls[|ls| - 1].name == x then Some(ls[|ls| - 1])
    else FindLocal(ls[..|ls| - 1], x)
  }

  function GenVar(ls: seq<Local>, x: string): Operand {
    var d := FindLocal(ls, x);
    if d.Some? then Temp(d.value.slot) else Global(x)
  }

  function GenIntToInt(c: Ctr, from: Ty, v: Operand, to: Ty): ExpGen {
    if Width(from) == Width(to) then ExpGen([], v, c)
    else if Width(from) < Width(to) then
      ExpGen([Sext(c.loc, Width(from), v, Width(to))], Temp(c.loc), c.(loc := c.loc + 1))
    else
      ExpGen([Trunc(c.loc, Width(from), v, Width(to))], Temp(c.loc), c.(loc := c.loc + 1))
  }

  function GenConversion(c: Ctr, from: Ty, v: Operand, to: Ty): ExpGen
    decreases from.Char?
  {
    if from == to then ExpGen([], v, c)
    else if from.Void? || to.Void? then ExpGen([Unreachable], NoValue, c)
    else if IsInt(from) then
      if IsInt(to) then GenIntToInt(c, from, v, to) else ExpGen([Unreachable], NoValue, c)
    else if from.Char? then GenConversion(c, Byte, v, to)
    else ExpGen([Unreachable], NoValue, c)
  }

  // How the code of a construct is put together from the code of its parts

  function AbortCode(code: Code, c: Ctr): ExpGen {
    ExpGen(code + [Unreachable], NoValue, c)
  }

  /** A negation takes two temporaries and uses the second one. */
  function NegateCode(g: ExpGen, w: nat): ExpGen {
    ExpGen(g.code + [Arith(g.c.loc + 1, Sub, w, Lit(0), g.v)], Temp(g.c.loc + 1), g.c.(loc := g.c.loc + 2))
  }

  function ArithCode(gl: ExpGen, gr: ExpGen, op: BinOp, w: nat): ExpGen {
    ExpGen(gl.code + gr.code + [Arith(gr.c.loc, op, w, gl.v, gr.v)], Temp(gr.c.loc), gr.c.(loc := gr.c.loc + 1))
  }

  /** An arm of a conditional expression ends in a block of its own, from which the end label is entered. */
  function ArmCode(before: Code, l: nat, g: ExpGen, el: nat): Code {
    before + [Label(l)] + g.code + [Br(g.c.lab), Label(g.c.lab), Br(el)]
  }

  function ConditionalCode(c: Ctr, gc: CodeGen, ga: ExpGen, gb: ExpGen, w: nat): ExpGen {
    var el := c.lab + 2;
    ExpGen(ArmCode(ArmCode(gc.code, c.lab, ga, el), c.lab + 1, gb, el)
           + [Label(el), Phi(gb.c.loc, w, ga.c.lab, ga.v, gb.c.lab, gb.v)],
           Temp(gb.c.loc), Ctr(gb.c.loc + 1, gb.c.lab + 1))
  }

  function CallCode(g: ArgsGen, sig: Sig): ExpGen {
    if !sig.ret.Void? then
      ExpGen(g.code + [CallExp(g.c.loc, Width(sig.ret), sig.name, g.vs)], Temp(g.c.loc), g.c.(loc := g.c.loc + 1))
    else
      ExpGen(g.code + [CallVoid(sig.name, g.vs)], NoValue, g.c)
  }

  function ComparCode(gl: ExpGen, gr: ExpGen, op: CmpOp, t: Ty, tl: nat, fl: nat): CodeGen {
    CodeGen(gl.code + gr.code + (if IsInt(t) || op.Eq? || op.Ne? then [] else [Unreachable])
            + [Cmp(gr.c.loc, op, Width(t), gl.v, gr.v), CondBr(Temp(gr.c.loc), tl, fl)],
            gr.c.(loc := gr.c.loc + 1))
  }

  function IfCode(c: Ctr, gc: CodeGen, gt: CodeGen, br: Code): Code {
    gc.code + [Label(c.lab)] + gt.code + br + [Label(c.lab + 1)]
  }

  function IfElseCode(c: Ctr, gc: CodeGen, gt: CodeGen, ge: CodeGen, brT: Code, brE: Code, end: Code): Code {
    IfCode(c, gc, gt, brT) + ge.code + brE + end
  }

  function WhileCode(c: Ctr, g1: CodeGen, gb: CodeGen, g2: CodeGen, br: Code): Code {
    g1.code + [Label(c.lab + 1)] + gb.code + br + [Label(c.lab + 2)] + g2.code + [Label(c.lab)]
  }

  function EchoCode(g: ExpGen, t: Ty): CodeGen {
    if t.Char? then CodeGen(g.code + [EchoRt(CharKind, g.v)], g.c)
    else
      var k := GenConversion(g.c, t, g.v, Long);
      CodeGen(g.code + k.code + [EchoRt(IntegerKind, k.v)], k.c)
  }

  function GenExp(ls: seq<Local>, c: Ctr, e: Exp, target: Ty): ExpGen
    decreases e, 2
  {
    var b := GenTyped(ls, c, e);
    var k := GenConversion(b.c, TyOf(e), b.v, target);
    ExpGen(b.code + k.code, k.v, k.c)
  }

  /** The expression at its own type, before it is converted to the type it is used at. */
  function GenTyped(ls: seq<Local>, c: Ctr, e: Exp): ExpGen
    decreases e, 1
  {
    match e
    case IntLit(n, _) => ExpGen([], Lit(n), c)
    case CharLit(k) => ExpGen([], Lit(k), c)
    case Var(x, t, _) =>
      ExpGen([Load(c.loc, Width(t), GenVar(ls, x))], Temp(c.loc), c.(loc := c.loc + 1))
    case Unary(op, a, t) =>
      var g := GenExp(ls, c, a, TyOf(a));
      if op.Negative? then NegateCode(g, Width(TyOf(a))) else AbortCode(g.code, g.c)
    case Binary(op, l, r, t) =>
      var gl := GenExp(ls, c, l, t);
      var gr := GenExp(ls, gl.c, r, t);
      if IsInt(t) then ArithCode(gl, gr, op, Width(t)) else AbortCode(gl.code + gr.code, gr.c)
    case Cast(a, _, t) => GenExp(ls, c, a, t)
    case Conditional(cond, a, b, t) =>
      var gc := GenCond(ls, c.(lab := c.lab + 3), cond, c.lab, c.lab + 1);
      var ga := GenExp(ls, gc.c, a, t);
      var gb := GenExp(ls, ga.c.(lab := ga.c.lab + 1), b, t);
      ConditionalCode(c, gc, ga, gb, Width(t))
    case Call(sig, args) => GenCall(ls, c, sig, args)
  }

  function GenCall(ls: seq<Local>, c: Ctr, sig: Sig, args: seq<Exp>): ExpGen
    decreases args, 1
  {
    CallCode(GenArgs(ls, c, args, sig.params), sig)
  }

  function GenArgs(ls: seq<Local>, c: Ctr, es: seq<Exp>, ts: seq<Ty>): ArgsGen
    decreases es, 0
  {
    if es == [] || ts == [] then ArgsGen([], [], c)
    else
      var g := GenExp(ls, c, es[0], ts[0]);
      var r := GenArgs(ls, g.c, es[1..], ts[1..]);
      ArgsGen(g.code + r.code, [CallArg(Width(ts[0]), g.v)] + r.vs, r.c)
  }

  /** Code that branches to `tl` or to `fl`; a negated condition swaps the two. */
  function GenCond(ls: seq<Local>, c: Ctr, cond: Cond, tl: nat, fl: nat): CodeGen
    decreases cond, 1
  {
    if cond.negate then GenPlainCond(ls, c, cond, fl, tl) else GenPlainCond(ls, c, cond, tl, fl)
  }

  function GenPlainCond(ls: seq<Local>, c: Ctr, cond: Cond, tl: nat, fl: nat): CodeGen
    decreases cond, 0
  {
    match cond
    case BinCond(_, op, l, r) =>
      var c0 := c.(lab := c.lab + 1);
      var gl := if op.And? then GenCond(ls, c0, l, c.lab, fl) else GenCond(ls, c0, l, tl, c.lab);
      var gr := GenCond(ls, gl.c, r, tl, fl);
      CodeGen(gl.code + [Label(c.lab)] + gr.code, gr.c)
    case Compar(_, op, l, r) =>
      var gl := GenExp(ls, c, l, TyOf(l));
      var gr := GenExp(ls, gl.c, r, TyOf(l));
      ComparCode(gl, gr, op, TyOf(l), tl, fl)
  }

  /** `ret` is the return type of the enclosing function, `el` and `kl` the end and check labels of the
      enclosing loop. */
  function GenStmt(ret: Ty, el: nat, kl: nat, ls: seq<Local>, c: Ctr, s: Stmt): StmtGen
    decreases s, 0
  {
    match s
    case VarDef(x, _, t, _) =>
      StmtGen([Alloca(c.loc, Width(t)), Store(Width(t), Temp(c.loc), Lit(0))],
              c.(loc := c.loc + 1), ls + [Local(x, t, c.loc)], false)
    case Assign(x, t, _, e) =>
      var g := GenExp(ls, c, e, t);
      StmtGen(g.code + [Store(Width(t), GenVar(ls, x), g.v)], g.c, ls, false)
    case If(cond, t) =>
      var gc := GenCond(ls, c.(lab := c.lab + 2), cond, c.lab, c.lab + 1);
      var gt := GenBlock(ret, el, kl, ls, gc.c, t);
      StmtGen(IfCode(c, gc, gt, if Exits(t) then [] else [Br(c.lab + 1)]), gt.c, ls, false)
    case IfElse(cond, t, e) =>
      var gc := GenCond(ls, c.(lab := c.lab + 2), cond, c.lab, c.lab + 1);
      var gt := GenBlock(ret, el, kl, ls, gc.c, t);
      if Exits(t) && Exits(e) then
        var ge := GenBlock(ret, el, kl, ls, gt.c, e);
        StmtGen(IfCode(c, gc, gt, []) + ge.code, ge.c, ls, true)
      else
        var endl := gt.c.lab;
        var ge := GenBlock(ret, el, kl, ls, gt.c.(lab := endl + 1), e);
        // the end label is placed only when neither arm exits
        StmtGen(IfElseCode(c, gc, gt, ge, if Exits(t) then [] else [Br(endl)], if Exits(e) then [] else [Br(endl)],
                           if Exits(t) || Exits(e) then [] else [Label(endl)]),
                ge.c, ls, false)
    case While(cond, body) =>
      var endl, bl, chk := c.lab, c.lab + 1, c.lab + 2;
      var g1 := GenCond(ls, c.(lab := c.lab + 3), cond, bl, endl);
      var gb := GenBlock(ret, endl, chk, ls, g1.c, body);
      var g2 := GenCond(ls, gb.c, cond, bl, endl);
      StmtGen(WhileCode(c, g1, gb, g2, if Exits(body) then [] else [Br(chk)]), g2.c, ls, false)
    case Break => StmtGen([Br(el)], c, ls, false)
    case Continue => StmtGen([Br(kl)], c, ls, false)
    case Return => StmtGen([RetVoid], c, ls, true)
    case ReturnValue(e) =>
      var g := GenExp(ls, c, e, ret);
      StmtGen(g.code + [Ret(Width(ret), g.v)], g.c, ls, true)
    case CallStmt(sig, args) =>
      var g := GenCall(ls, c, sig, args);
      StmtGen(g.code, g.c, ls, false)
    case Block(b) =>
      var g := GenBlock(ret, el, kl, ls, c, b);
      StmtGen(g.code, g.c, ls, false)
    case Echo(e) =>
      var g := EchoCode(GenExp(ls, c, e, TyOf(e)), TyOf(e));
      StmtGen(g.code, g.c, ls, false)
  }

  /** The locals of a block are forgotten at its end. */
  function GenBlock(ret: Ty, el: nat, kl: nat, ls: seq<Local>, c: Ctr, b: seq<Stmt>): CodeGen
    decreases b, 1
  {
    var g := GenStmts(ret, el, kl, ls, c, b);
    CodeGen(g.code, g.c)
  }

  /** Statements up to the first one that says nothing after it can be reached. */
  function GenStmts(ret: Ty, el: nat, kl: nat, ls: seq<Local>, c: Ctr, ss: seq<Stmt>): StmtGen
    decreases ss, 0
  {
    if ss == [] then StmtGen([], c, ls, false)
    else
      var g := GenStmt(ret, el, kl, ls, c, ss[0]);
      if g.stop then g
      else
        var r := GenStmts(ret, el, kl, g.ls, g.c, ss[1..]);
        r.(code := g.code + r.code)
  }

  /** A cell for each parameter, filled with the argument. */
  function GenParams(params: seq<string>, ts: seq<Ty>, n: nat): Code
    requires n <= |params| && n <= |ts|
  {
    if n == 0 then []
    else
      GenParams(params, ts, n - 1)
      + [Alloca(n - 1, Width(ts[n - 1])), Store(Width(ts[n - 1]), Temp(n - 1), Arg(n - 1))]
  }

  function ParamLocals(params: seq<string>, ts: seq<Ty>, n: nat): seq<Local>
    requires n <= |params| && n <= |ts|
  {
    seq(n, i requires 0 <= i < n => Local(params[i], ts[i], i))
  }

  /** `el` and `kl` are whatever loop labels the previous function left behind. */
  function GenFunc(f: Func, el: nat, kl: nat): Code
    requires |f.params| == |f.sig.params|
  {
    var n := |f.params|;
    var g := GenBlock(f.sig.ret, el, kl, ParamLocals(f.params, f.sig.params, n), Ctr(n, 0), f.body);
    GenParams(f.params, f.sig.params, n)
    + (if f.sig.name == "main" then [InitRt] else [])
    + g.code
    + (if f.sig.ret.Void? && !Exits(f.body) then [RetVoid] else [])
  }

  // The code of conditional statements and loops

  lemma IfIs(ret: Ty, el: nat, kl: nat, ls: seq<Local>, c: Ctr, s: Stmt)
    requires s.If?
    ensures var gc := GenCond(ls, c.(lab := c.lab + 2), s.c, c.lab, c.lab + 1);
            var gt := GenBlock(ret, el, kl, ls, gc.c, s.thn);
            var br := if Exits(s.thn) then [] else [Br(c.lab + 1)];
            GenStmt(ret, el, kl, ls, c, s) == StmtGen(IfCode(c, gc, gt, br), gt.c, ls, false)
  {
    hide GenExp, GenCond, GenBlock, GenArgs, Exits;
  }

  lemma IfElseIs(ret: Ty, el: nat, kl: nat, ls: seq<Local>, c: Ctr, s: Stmt)
    requires s.IfElse?
    ensures var gc := GenCond(ls, c.(lab := c.lab + 2), s.c, c.lab, c.lab + 1);
            var gt := GenBlock(ret, el, kl, ls, gc.c, s.thn);
            var end := gt.c.lab;
            var ge := if Exits(s.thn) && Exits(s.els) then GenBlock(ret, el, kl, ls, gt.c, s.els)
                      else GenBlock(ret, el, kl, ls, gt.c.(lab := end + 1), s.els);
            GenStmt(ret, el, kl, ls, c, s)
            == if Exits(s.thn) && Exits(s.els) then StmtGen(IfCode(c, gc, gt, []) + ge.code, ge.c, ls, true)
               else StmtGen(IfElseCode(c, gc, gt, ge, if Exits(s.thn) then [] else [Br(end)],
                                       if Exits(s.els) then [] else [Br(end)],
                                       if Exits(s.thn) || Exits(s.els) then [] else [Label(end)]),
                            ge.c, ls, false)
  {
    hide GenExp, GenCond, GenBlock, GenArgs, Exits;
  }

  lemma WhileIs(ret: Ty, el: nat, kl: nat, ls: seq<Local>, c: Ctr, s: Stmt)
    requires s.While?
    ensures var g1 := GenCond(ls, c.(lab := c.lab + 3), s.c, c.lab + 1, c.lab);
            var gb := GenBlock(ret, c.lab, c.lab + 2, ls, g1.c, s.body);
            var g2 := GenCond(ls, gb.c, s.c, c.lab + 1, c.lab);
            var br := if Exits(s.body) then [] else [Br(c.lab + 2)];
            GenStmt(ret, el, kl, ls, c, s) == StmtGen(WhileCode(c, g1, gb, g2, br), g2.c, ls, false)
  {
    hide GenExp, GenCond, GenBlock, GenArgs, Exits;
  }
}
