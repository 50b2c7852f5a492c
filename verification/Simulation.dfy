/** The emitted code does what the source semantics says, construct by construct. */
module Simulation {
  import opened Ints
  import opened Ast
  import opened Machine
  import opened Codegen
  import opened Shape
  import opened Related
  import opened Stepping
  import opened Lowerable
  import opened ReturnPaths
  import S = Source

  /** The run of one function activation: the programs on both sides, the code of the function,
      and the source scopes, cells and locals of the moment. */
  datatype Ctx = Ctx(p: Program, mp: MProgram, code: Code, env: S.Env, store: seq<S.Value>, ls: seq<Local>)

  /** Every function of the program is there, compiled from a tree the generator can handle. */
  ghost predicate Linked(p: Program, mp: MProgram) {
    && mp.Keys == p.Keys
    && forall f | f in p ::
         && |p[f].params| == |p[f].sig.params|
         && LowersStmts(p[f].sig.ret, p[f].body)
         && exists el, kl :: mp[f] == GenFunc(p[f], el, kl)
  }

  predicate Inside(x: Ctx, s: State) {
    s.top.fn in x.mp && x.mp[s.top.fn] == x.code && UniqueLabels(x.code)
  }

  /** The machine is about to run `piece` in a state that stands for the source state. */
  predicate Ready(x: Ctx, n: nat, g: S.Glob, s: State, piece: Code) {
    Inside(x, s) && At(x.code, s.top.pc, piece) && Rel(x.env, x.ls, n, x.store, g, s)
  }

  /** A run that ends early on one side does so on the other; a run that is out of fuel keeps the machine busy. */
  predicate StopPost(mp: MProgram, s: State, n: nat, why: S.Why, fuel: nat) {
    match why
    case Trap(ev) => Run(mp, Running(s), n) == Trapped(ev)
    case Timeout => Run(mp, Running(s), n).Running? && fuel <= n
    case Wrong => true
  }

  predicate ExpPost(x: Ctx, s: State, n: nat, s': State, res: S.Res<S.Value>, lo: nat, gen: ExpGen, fuel: nat) {
    match res
    case Stop(why) => StopPost(x.mp, s, n, why, fuel)
    case Ok(v, g') =>
      && Steps(x.mp, s, n, s') && Keeps(s, s', lo) && Shares(s', g')
      && s'.top.pc == s.top.pc + |gen.code|
      && Holds(s'.top, gen.v, v, gen.c.loc)
  }

  predicate ArgsPost(x: Ctx, s: State, n: nat, s': State, res: S.Res<seq<S.Value>>, lo: nat, gen: ArgsGen, fuel: nat) {
    match res
    case Stop(why) => StopPost(x.mp, s, n, why, fuel)
    case Ok(vs, g') =>
      && Steps(x.mp, s, n, s') && Keeps(s, s', lo) && Shares(s', g')
      && s'.top.pc == s.top.pc + |gen.code|
      && ArgBits(s'.top, gen.vs) == Some(Reps(vs))
  }

  predicate CondPost(x: Ctx, s: State, n: nat, s': State, res: S.Res<bool>, lo: nat, tl: nat, fl: nat, fuel: nat) {
    match res
    case Stop(why) => StopPost(x.mp, s, n, why, fuel)
    case Ok(b, g') =>
      && Steps(x.mp, s, n, s') && Keeps(s, s', lo) && Shares(s', g')
      && s'.top.pc == LabelPos(x.code, if b then tl else fl) + 1
  }

  // Putting runs one after the other

  lemma StopLater(mp: MProgram, s: State, n1: nat, s1: State, n2: nat, why: S.Why, fuel: nat)
    requires Steps(mp, s, n1, s1) && StopPost(mp, s1, n2, why, fuel)
    ensures StopPost(mp, s, n1 + n2, why, fuel)
  {
    Then(mp, s, n1, s1, n2);
  }

  lemma StepLater(mp: MProgram, s: State, n1: nat, s1: State, s2: State)
    requires Steps(mp, s, n1, s1) && Step(mp, s1) == Running(s2)
    ensures Steps(mp, s, n1 + 1, s2)
  {
    Then(mp, s, n1, s1, 1);
    OneStep(mp, s1);
  }

  lemma StepsLater(mp: MProgram, s: State, n1: nat, s1: State, n2: nat, s2: State)
    requires Steps(mp, s, n1, s1) && Steps(mp, s1, n2, s2)
    ensures Steps(mp, s, n1 + n2, s2)
  {
    Then(mp, s, n1, s1, n2);
  }

  /** After code that kept what is below `n`, the machine is ready for the next piece. */
  lemma ReadyNext(x: Ctx, n: nat, n': nat, g: S.Glob, g': S.Glob, s: State, s': State, piece: Code, next: Code)
    requires Ready(x, n, g, s, piece) && Keeps(s, s', n) && n <= n' && Shares(s', g')
    requires At(x.code, s'.top.pc, next)
    ensures Ready(x, n', g', s', next)
  {
    RelKept(x.env, x.ls, n, n', x.store, g, g', s, s');
  }

  lemma ReadyHead(x: Ctx, n: nat, g: S.Glob, s: State, piece: Code, head: Code)
    requires Ready(x, n, g, s, piece) && At(x.code, s.top.pc, head)
    ensures Ready(x, n, g, s, head)
  {
  }

  lemma Still(x: Ctx, n: nat, g: S.Glob, s: State, piece: Code)
    requires Ready(x, n, g, s, piece)
    ensures Steps(x.mp, s, 0, s) && Keeps(s, s, n) && Shares(s, g)
  {
  }

  lemma KeepsDefined(s: State, s1: State, dst: nat, v: MVal, n: nat)
    requires Keeps(s, s1, n) && n <= dst
    ensures Keeps(s, Defined(s1, dst, v), n)
  {
  }

  lemma TempHolds(f: Frame, id: nat, v: S.Value)
    requires id in f.temps && f.temps[id] == Rep(v)
    ensures Holds(f, Temp(id), v, id + 1)
  {
  }

  // Conversions

  lemma {:induction false} SimConversion(x: Ctx, c: Ctr, from: Ty, op: Operand, to: Ty, v: S.Value, s: State)
    returns (n: nat, s': State)
    requires Inside(x, s)
    requires At(x.code, s.top.pc, GenConversion(c, from, op, to).code)
    requires S.Convertible(from, to) && Width(v.ty) == Width(from) && Holds(s.top, op, v, c.loc)
    ensures var g := GenConversion(c, from, op, to);
            && Steps(x.mp, s, n, s') && Keeps(s, s', c.loc)
            && s'.vars == s.vars && s'.events == s.events && s'.answers == s.answers
            && s'.top.pc == s.top.pc + |g.code|
            && Holds(s'.top, g.v, S.MkValue(to, v.n), g.c.loc)
    decreases from.Char?
  {
    var g := GenConversion(c, from, op, to);
    var wf, wt := Width(from), Width(to);
    RepMk(to, v.n);
    if from.Char? && from != to {
      n, s' := SimConversion(x, c, Byte, op, to, v, s);
    } else if wf == wt {
      n, s' := 0, s;
    } else {
      n, s' := SimResize(x, c, wf, op, wt, v, s, g.code[0]);
    }
  }

  lemma SimResize(x: Ctx, c: Ctr, wf: nat, op: Operand, wt: nat, v: S.Value, s: State, i: Instr)
    returns (n: nat, s': State)
    requires Inside(x, s) && At(x.code, s.top.pc, [i])
    requires Width(v.ty) == wf && wt > 0 && Holds(s.top, op, v, c.loc)
    requires wf < wt ==> i == Sext(c.loc, wf, op, wt)
    requires wt < wf ==> i == Trunc(c.loc, wf, op, wt)
    requires wf != wt
    ensures Steps(x.mp, s, n, s') && Keeps(s, s', c.loc)
    ensures s'.vars == s.vars && s'.events == s.events && s'.answers == s.answers
    ensures s'.top.pc == s.top.pc + 1
    ensures BitsOf(s'.top, wt, Temp(c.loc)) == Some(Bits(wt, ToBits(wt, v.n)))
  {
    hide ToBits, SignExtend;
    AtOne(x.code, s.top.pc, i);
    if wf < wt {
      ExtendedBits(wf, wt, v.n);
    } else {
      TruncatedBits(wt, wf, v.n);
    }
    s' := Defined(s, c.loc, Bits(wt, ToBits(wt, v.n)));
    n := 1;
    OneStep(x.mp, s);
  }

  // Expressions

  lemma {:induction false} SimExp(x: Ctx, fuel: nat, g: S.Glob, c: Ctr, e: Exp, t: Ty, s: State)
    returns (n: nat, s': State)
    requires Linked(x.p, x.mp) && LowersAs(e, t) && Ready(x, c.loc, g, s, GenExp(x.ls, c, e, t).code)
    ensures ExpPost(x, s, n, s', S.EvalAs(fuel, x.p, x.env, x.store, g, e, t), c.loc, GenExp(x.ls, c, e, t), fuel)
    decreases fuel, 1, e, 3
  {
    hide Rel, Run, Step, GenTyped, GenConversion, Linked, Lowers, S.EvalExp, Keeps, Holds, At, S.MkValue, Shares,
      StopPost, Steps;
    var b := GenTyped(x.ls, c, e);
    var k := GenConversion(b.c, TyOf(e), b.v, t);
    AtCat(x.code, s.top.pc, b.code, k.code);
    var n1, s1 := SimTyped(x, fuel, g, c, e, s);
    FreshTyped(x.ls, c, e, 0);
    n, s' := n1, s1;
    var r := S.EvalExp(fuel, x.p, x.env, x.store, g, e);
    if r.Ok? && S.Convertible(r.v.ty, t) {
      n, s' := SimConverted(x, c, b, t, r.v, r.g, s, n1, s1);
    }
  }

  /** The code of an expression, and then that of its conversion. */
  lemma SimConverted(x: Ctx, c: Ctr, b: ExpGen, t: Ty, v: S.Value, g: S.Glob, s: State, n1: nat, s1: State)
    returns (n: nat, s': State)
    requires S.Convertible(v.ty, t) && c.loc <= b.c.loc && Inside(x, s)
    requires At(x.code, s.top.pc + |b.code|, GenConversion(b.c, v.ty, b.v, t).code)
    requires Steps(x.mp, s, n1, s1) && Keeps(s, s1, c.loc) && Shares(s1, g)
    requires s1.top.pc == s.top.pc + |b.code| && Holds(s1.top, b.v, v, b.c.loc)
    ensures var k := GenConversion(b.c, v.ty, b.v, t);
            && Steps(x.mp, s, n, s') && Keeps(s, s', c.loc) && Shares(s', g)
            && s'.top.pc == s.top.pc + |b.code| + |k.code|
            && Holds(s'.top, k.v, S.MkValue(t, v.n), k.c.loc)
  {
    hide Run, Step, GenConversion, KeepsTemps, Holds, At, S.MkValue, RepVars;
    var n2, s2 := SimConversion(x, b.c, v.ty, b.v, t, v, s1);
    StepsLater(x.mp, s, n1, s1, n2, s2);
    KeepsTrans(s, s1, s2, c.loc, c.loc, b.c.loc);
    n, s' := n1 + n2, s2;
  }

  /** An expression used at its own type is not converted. */
  lemma SameType(ls: seq<Local>, c: Ctr, e: Exp)
    ensures GenExp(ls, c, e, TyOf(e)) == GenTyped(ls, c, e)
  {
    var b := GenTyped(ls, c, e);
    assert b.code + [] == b.code;
  }

  lemma {:induction false} SimTyped(x: Ctx, fuel: nat, g: S.Glob, c: Ctr, e: Exp, s: State)
    returns (n: nat, s': State)
    requires Linked(x.p, x.mp) && Lowers(e) && Ready(x, c.loc, g, s, GenTyped(x.ls, c, e).code)
    ensures ExpPost(x, s, n, s', S.EvalExp(fuel, x.p, x.env, x.store, g, e), c.loc, GenTyped(x.ls, c, e), fuel)
    decreases fuel, 1, e, 2
  {
    hide Step, Linked, GenExp, GenCond;
    match e
    case IntLit(_, _) => n, s' := 0, s;
    case CharLit(_) => n, s' := 0, s;
    case Var(_, _, _) => n, s' := SimVar(x, fuel, g, c, e, s);
    case Unary(_, _, _) => n, s' := SimUnary(x, fuel, g, c, e, s);
    case Binary(_, _, _, _) => n, s' := SimBinary(x, fuel, g, c, e, s);
    case Cast(a, _, t) => n, s' := SimExp(x, fuel, g, c, a, t, s);
    case Conditional(_, _, _, _) => n, s' := SimConditional(x, fuel, g, c, e, s);
    case Call(_, _) => n, s' := SimCallExp(x, fuel, g, c, e, s);
  }

  lemma {:induction false} SimVar(x: Ctx, fuel: nat, g: S.Glob, c: Ctr, e: Exp, s: State)
    returns (n: nat, s': State)
    requires e.Var?
    requires Ready(x, c.loc, g, s, GenTyped(x.ls, c, e).code)
    ensures ExpPost(x, s, n, s', S.EvalExp(fuel, x.p, x.env, x.store, g, e), c.loc, GenTyped(x.ls, c, e), fuel)
  {
    hide Step, ReadCell, S.ReadVar;
    n, s' := 1, s;
    var v := S.ReadVar(x.env, x.store, g, e.x);
    if v.Some? && v.value.ty == e.vty {
      var i := Load(c.loc, Width(e.vty), GenVar(x.ls, e.x));
      AtOne(x.code, s.top.pc, i);
      ReadIs(x.env, x.ls, c.loc, x.store, g, s, e.x);
      OneStep(x.mp, s);
      StepLoad(x.mp, s, i, Rep(v.value));
      s' := Defined(s, c.loc, Rep(v.value));
    }
  }

  lemma {:induction false} SimUnary(x: Ctx, fuel: nat, g: S.Glob, c: Ctr, e: Exp, s: State)
    returns (n: nat, s': State)
    requires e.Unary?
    requires Linked(x.p, x.mp) && Lowers(e) && Ready(x, c.loc, g, s, GenTyped(x.ls, c, e).code)
    ensures ExpPost(x, s, n, s', S.EvalExp(fuel, x.p, x.env, x.store, g, e), c.loc, GenTyped(x.ls, c, e), fuel)
    decreases fuel, 1, e, 1
  {
    hide Rel, Run, Step, Linked, ArithBits, ToBits, KeepsTemps, At, GenTyped, S.EvalExp, S.MkValue, Holds, Rep;
    var a := GenTyped(x.ls, c, e.arg);
    var w := Width(TyOf(e.arg));
    var neg := Arith(a.c.loc + 1, Sub, w, Lit(0), a.v);
    UnaryIs(x, fuel, g, c, e);
    AtCat(x.code, s.top.pc, a.code, [neg]);
    var n1, s1 := SimTyped(x, fuel, g, c, e.arg, s);
    n, s' := n1, s1;
    FreshTyped(x.ls, c, e.arg, 0);
    var r := S.EvalExp(fuel, x.p, x.env, x.store, g, e.arg);
    if r.Ok? && r.v.ty == e.uty && IsInt(e.uty) {
      var v := S.MkValue(e.uty, -r.v.n);
      AtOne(x.code, s1.top.pc, neg);
      StepNegate(x.mp, s1, a.c.loc + 1, a.v, r.v, a.c.loc);
      s' := Defined(s1, a.c.loc + 1, Rep(v));
      StepLater(x.mp, s, n1, s1, s');
      KeepsDefined(s, s1, a.c.loc + 1, Rep(v), c.loc);
      TempHolds(s'.top, a.c.loc + 1, v);
      n := n1 + 1;
    }
  }

  lemma UnaryIs(x: Ctx, fuel: nat, g: S.Glob, c: Ctr, e: Exp)
    requires e.Unary? && Lowers(e)
    ensures Lowers(e.arg) && GenTyped(x.ls, c, e) == NegateCode(GenTyped(x.ls, c, e.arg), Width(TyOf(e.arg)))
    ensures var r := S.EvalExp(fuel, x.p, x.env, x.store, g, e.arg);
            S.EvalExp(fuel, x.p, x.env, x.store, g, e)
            == if r.Stop? then S.Stop(r.why)
               else if r.v.ty != e.uty || !IsInt(e.uty) then S.Stop(S.Wrong)
               else S.Ok(S.MkValue(e.uty, -r.v.n), r.g)
  {
    SameType(x.ls, c, e.arg);
  }

  lemma StepNegate(mp: MProgram, s: State, dst: nat, op: Operand, v: S.Value, n: nat)
    requires Holds(s.top, op, v, n) && IsInt(v.ty)
    requires s.top.fn in mp && s.top.pc < |mp[s.top.fn]|
    requires mp[s.top.fn][s.top.pc] == Arith(dst, Sub, Width(v.ty), Lit(0), op)
    ensures Step(mp, s) == Running(Defined(s, dst, Rep(S.MkValue(v.ty, -v.n))))
  {
    hide Step, ToBits, ArithBits;
    ArithIs(Sub, Width(v.ty), 0, v.n);
    StepArith(mp, s, Arith(dst, Sub, Width(v.ty), Lit(0), op), 0, v.n);
    RepMk(v.ty, -v.n);
  }

  lemma {:induction false} SimBinary(x: Ctx, fuel: nat, g: S.Glob, c: Ctr, e: Exp, s: State)
    returns (n: nat, s': State)
    requires e.Binary?
    requires Linked(x.p, x.mp) && Lowers(e) && Ready(x, c.loc, g, s, GenTyped(x.ls, c, e).code)
    ensures ExpPost(x, s, n, s', S.EvalExp(fuel, x.p, x.env, x.store, g, e), c.loc, GenTyped(x.ls, c, e), fuel)
    decreases fuel, 1, e, 1
  {
    hide Rel, Run, Step, Linked, GenExp, S.EvalAs, KeepsTemps, Holds, At, LowersAs;
    var t := e.bty;
    var gl := GenExp(x.ls, c, e.l, t);
    var gr := GenExp(x.ls, gl.c, e.r, t);
    var code := GenTyped(x.ls, c, e).code;
    var last := Arith(gr.c.loc, e.bop, Width(t), gl.v, gr.v);
    AtCat(x.code, s.top.pc, gl.code + gr.code, [last]);
    AtCat(x.code, s.top.pc, gl.code, gr.code);
    n, s' := SimExp(x, fuel, g, c, e.l, t, s);
    var rl := S.EvalAs(fuel, x.p, x.env, x.store, g, e.l, t);
    if rl.Stop? {
      return;
    }
    FreshExp(x.ls, c, e.l, t, 0);
    var n1, s1 := n, s';
    ReadyNext(x, c.loc, gl.c.loc, g, rl.g, s, s1, code, gr.code);
    var n2, s2 := SimExp(x, fuel, rl.g, gl.c, e.r, t, s1);
    var rr := S.EvalAs(fuel, x.p, x.env, x.store, rl.g, e.r, t);
    n, s' := n1 + n2, s2;
    if rr.Stop? {
      StopLater(x.mp, s, n1, s1, n2, rr.why, fuel);
      return;
    }
    FreshExp(x.ls, gl.c, e.r, t, 0);
    StepsLater(x.mp, s, n1, s1, n2, s2);
    KeepsTrans(s, s1, s2, c.loc, c.loc, gl.c.loc);
    HoldsKept(s1, s2, gl.v, rl.v, gl.c.loc, gr.c.loc);
    AtOne(x.code, s2.top.pc, last);
    n, s' := SimArith(x, rr.g, c, gl, gr, e.bop, t, rl.v, rr.v, s, n, s2, fuel);
  }

  lemma {:induction false} SimArith(x: Ctx, g: S.Glob, c: Ctr, gl: ExpGen, gr: ExpGen, op: BinOp, t: Ty,
                                    a: S.Value, b: S.Value, s: State, n2: nat, s2: State, fuel: nat)
    returns (n: nat, s': State)
    requires IsInt(t) && a.ty == t && b.ty == t && c.loc <= gr.c.loc
    requires Inside(x, s2) && Current(x.mp, s2, Arith(gr.c.loc, op, Width(t), gl.v, gr.v))
    requires s2.top.pc == s.top.pc + |gl.code + gr.code|
    requires Steps(x.mp, s, n2, s2) && Keeps(s, s2, c.loc) && Shares(s2, g)
    requires Holds(s2.top, gl.v, a, gr.c.loc) && Holds(s2.top, gr.v, b, gr.c.loc)
    ensures var r := S.Arith(op, Width(t), a.n, b.n);
            ExpPost(x, s, n, s', if r.None? then S.Stop(S.Trap(g.events)) else S.Ok(S.MkValue(t, r.value), g),
                    c.loc, ArithCode(gl, gr, op, Width(t)), fuel)
  {
    hide Run, Step, ArithBits, S.Arith, ToBits;
    ArithIs(op, Width(t), a.n, b.n);
    n := n2 + 1;
    Then(x.mp, s, n2, s2, 1);
    OneStep(x.mp, s2);
    var r := S.Arith(op, Width(t), a.n, b.n);
    StepArith(x.mp, s2, Arith(gr.c.loc, op, Width(t), gl.v, gr.v), a.n, b.n);
    s' := s2;
    if r.Some? {
      RepMk(t, r.value);
      s' := Defined(s2, gr.c.loc, Rep(S.MkValue(t, r.value)));
    }
  }

  // Conditional expressions

  lemma AtTwo(code: Code, pos: nat, i: Instr, j: Instr)
    requires At(code, pos, [i, j])
    ensures pos + 1 < |code| && code[pos] == i && code[pos + 1] == j
  {
    assert [i] + [j] == [i, j];
    AtCat(code, pos, [i], [j]);
    AtOne(code, pos, i);
    AtOne(code, pos + 1, j);
  }

  lemma AtThree(code: Code, pos: nat, i: Instr, j: Instr, k: Instr)
    requires At(code, pos, [i, j, k])
    ensures pos + 2 < |code| && code[pos] == i && code[pos + 1] == j && code[pos + 2] == k
  {
    assert [i] + [j, k] == [i, j, k];
    AtCat(code, pos, [i], [j, k]);
    AtOne(code, pos, i);
    AtTwo(code, pos + 1, j, k);
  }

  lemma ArmAt(code: Code, pos: nat, before: Code, l: nat, g: ExpGen, el: nat)
    requires At(code, pos, ArmCode(before, l, g, el))
    ensures var p := pos + |before|;
            var q := p + 1 + |g.code|;
            && At(code, pos, before)
            && p < |code| && code[p] == Label(l) && At(code, p + 1, g.code)
            && q + 2 < |code| && code[q] == Br(g.c.lab) && code[q + 1] == Label(g.c.lab) && code[q + 2] == Br(el)
            && |ArmCode(before, l, g, el)| == q + 3 - pos
  {
    hide At;
    var te := g.c.lab;
    AtCat(code, pos, before + [Label(l)] + g.code, [Br(te), Label(te), Br(el)]);
    AtCat(code, pos, before + [Label(l)], g.code);
    AtCat(code, pos, before, [Label(l)]);
    AtThree(code, pos + |before| + 1 + |g.code|, Br(te), Label(te), Br(el));
    AtOne(code, pos + |before|, Label(l));
  }

  lemma ConditionalAt(code: Code, pos: nat, c: Ctr, gc: CodeGen, ga: ExpGen, gb: ExpGen, w: nat)
    requires At(code, pos, ConditionalCode(c, gc, ga, gb, w).code)
    ensures var p1 := pos + |gc.code|;
            var p2 := p1 + 1 + |ga.code|;
            var p4 := p2 + 4 + |gb.code|;
            && At(code, pos, gc.code)
            && p4 + 4 < |code|
            && code[p1] == Label(c.lab) && At(code, p1 + 1, ga.code)
            && code[p2] == Br(ga.c.lab) && code[p2 + 1] == Label(ga.c.lab) && code[p2 + 2] == Br(c.lab + 2)
            && code[p2 + 3] == Label(c.lab + 1) && At(code, p2 + 4, gb.code)
            && code[p4] == Br(gb.c.lab) && code[p4 + 1] == Label(gb.c.lab) && code[p4 + 2] == Br(c.lab + 2)
            && code[p4 + 3] == Label(c.lab + 2)
            && code[p4 + 4] == Phi(gb.c.loc, w, ga.c.lab, ga.v, gb.c.lab, gb.v)
            && |ConditionalCode(c, gc, ga, gb, w).code| == p4 + 5 - pos
  {
    hide At, ArmCode;
    var el := c.lab + 2;
    var first := ArmCode(gc.code, c.lab, ga, el);
    var both := ArmCode(first, c.lab + 1, gb, el);
    AtCat(code, pos, both, [Label(el), Phi(gb.c.loc, w, ga.c.lab, ga.v, gb.c.lab, gb.v)]);
    ArmAt(code, pos, first, c.lab + 1, gb, el);
    ArmAt(code, pos, gc.code, c.lab, ga, el);
    AtTwo(code, pos + |both|, Label(el), Phi(gb.c.loc, w, ga.c.lab, ga.v, gb.c.lab, gb.v));
  }

  /** From the end of an arm through its own block to the end label, where the phi takes the value of the arm. */
  lemma FinishArm(x: Ctx, s: State, q: nat, r: nat, te: nat, el: nat, phi: Instr, op: Operand, v: MVal)
    returns (s': State)
    requires Inside(x, s) && s.top.pc == q && q + 2 < |x.code| && r + 1 < |x.code|
    requires x.code[q] == Br(te) && x.code[q + 1] == Label(te) && x.code[q + 2] == Br(el)
    requires x.code[r] == Label(el) && x.code[r + 1] == phi && phi.Phi?
    requires (te == phi.la && op == phi.a) || (te == phi.lb && te != phi.la && op == phi.b)
    requires BitsOf(s.top, phi.w, op) == Some(v)
    ensures Steps(x.mp, s, 3, s')
    ensures s' == s.(top := s.top.(temps := s.top.temps[phi.dst := v], pc := r + 2, prev := te, cur := el))
    ensures Keeps(s, s', phi.dst)
  {
    hide Step, Run;
    var s1 := GoTo(s, q + 1, te);
    StepBr(x.mp, s, te, q + 1);
    OneStep(x.mp, s);
    var s2 := GoTo(s1, r, el);
    StepBr(x.mp, s1, el, r);
    StepLater(x.mp, s, 1, s1, s2);
    assert BitsOf(s2.top, phi.w, op) == BitsOf(s.top, phi.w, op);
    StepPhi(x.mp, s2, phi, v);
    s' := Defined(s2, phi.dst, v);
    StepLater(x.mp, s, 2, s2, s');
  }

  lemma ConditionalIs(x: Ctx, fuel: nat, g: S.Glob, c: Ctr, e: Exp)
    requires e.Conditional? && Lowers(e)
    ensures LowersCond(e.cond) && LowersAs(e.thn, e.ety) && LowersAs(e.els, e.ety) && IsValueTy(e.ety)
    ensures var gc := GenCond(x.ls, c.(lab := c.lab + 3), e.cond, c.lab, c.lab + 1);
            var ga := GenExp(x.ls, gc.c, e.thn, e.ety);
            var gb := GenExp(x.ls, ga.c.(lab := ga.c.lab + 1), e.els, e.ety);
            GenTyped(x.ls, c, e) == ConditionalCode(c, gc, ga, gb, Width(e.ety))
    ensures var rc := S.EvalCond(fuel, x.p, x.env, x.store, g, e.cond);
            S.EvalExp(fuel, x.p, x.env, x.store, g, e)
            == if rc.Stop? then S.Stop(rc.why)
               else S.EvalAs(fuel, x.p, x.env, x.store, rc.g, if rc.v then e.thn else e.els, e.ety)
  {
    hide GenExp, GenCond, S.EvalAs, S.EvalCond, LowersAs, LowersCond, ConditionalCode;
  }

  lemma {:induction false} SimConditional(x: Ctx, fuel: nat, g: S.Glob, c: Ctr, e: Exp, s: State)
    returns (n: nat, s': State)
    requires e.Conditional?
    requires Linked(x.p, x.mp) && Lowers(e) && Ready(x, c.loc, g, s, GenTyped(x.ls, c, e).code)
    ensures ExpPost(x, s, n, s', S.EvalExp(fuel, x.p, x.env, x.store, g, e), c.loc, GenTyped(x.ls, c, e), fuel)
    decreases fuel, 1, e, 1
  {
    hide Rel, Run, Step, Linked, GenExp, GenTyped, GenCond, S.EvalExp, S.EvalAs, S.EvalCond, BitsOf, ConditionalCode,
      At, Keeps, Steps, StopPost, Lowers, LowersAs, LowersCond, Holds, Shares, UniqueLabels, LabelPos;
    ConditionalIs(x, fuel, g, c, e);
    var t := e.ety;
    var c0 := c.(lab := c.lab + 3);
    var gc := GenCond(x.ls, c0, e.cond, c.lab, c.lab + 1);
    var ga := GenExp(x.ls, gc.c, e.thn, t);
    var cb := ga.c.(lab := ga.c.lab + 1);
    var gb := GenExp(x.ls, cb, e.els, t);
    var code := GenTyped(x.ls, c, e).code;
    ConditionalAt(x.code, s.top.pc, c, gc, ga, gb, Width(t));
    var p1 := s.top.pc + |gc.code|;
    var p2 := p1 + 1 + |ga.code|;
    var p4 := p2 + 4 + |gb.code|;
    LabelPosIs(x.code, c.lab, p1);
    LabelPosIs(x.code, c.lab + 1, p2 + 3);
    ReadyHead(x, c.loc, g, s, code, gc.code);
    n, s' := SimCond(x, fuel, g, c0, e.cond, c.lab, c.lab + 1, s);
    var rc := S.EvalCond(fuel, x.p, x.env, x.store, g, e.cond);
    if rc.Stop? {
      return;
    }
    FreshCond(x.ls, c0, e.cond, c.lab, c.lab + 1, 0);
    FreshExp(x.ls, gc.c, e.thn, t, 0);
    FreshExp(x.ls, cb, e.els, t, 0);
    var n1, s1 := n, s';
    var c1, arm, ge := if rc.v then gc.c else cb, if rc.v then e.thn else e.els, if rc.v then ga else gb;
    ReadyNext(x, c.loc, c1.loc, g, rc.g, s, s1, code, ge.code);
    var n2, s2 := SimExp(x, fuel, rc.g, c1, arm, t, s1);
    var ra := S.EvalAs(fuel, x.p, x.env, x.store, rc.g, arm, t);
    n, s' := n1 + n2, s2;
    if ra.Stop? {
      StopLater(x.mp, s, n1, s1, n2, ra.why, fuel);
      return;
    }
    StepsLater(x.mp, s, n1, s1, n2, s2);
    KeepsTrans(s, s1, s2, c.loc, c.loc, c1.loc);
    n, s' := JoinArms(x, s, n, s2, c, gc, ga, gb, t, rc.v, ra.v, ra.g, fuel);
  }

  /** Both arms end with the value of the conditional expression in its phi. */
  lemma JoinArms(x: Ctx, s: State, n2: nat, s2: State, c: Ctr, gc: CodeGen, ga: ExpGen, gb: ExpGen, t: Ty,
                 first: bool, v: S.Value, g: S.Glob, fuel: nat)
    returns (n: nat, s': State)
    requires Inside(x, s) && At(x.code, s.top.pc, ConditionalCode(c, gc, ga, gb, Width(t)).code)
    requires Steps(x.mp, s, n2, s2) && Keeps(s, s2, c.loc) && Shares(s2, g) && v.ty == t
    requires var ge := if first then ga else gb; Holds(s2.top, ge.v, v, ge.c.loc)
    requires s2.top.pc == s.top.pc + |gc.code| + 1 + |ga.code| + (if first then 0 else 4 + |gb.code|)
    requires c.loc <= gb.c.loc && ga.c.lab < gb.c.lab
    ensures ExpPost(x, s, n, s', S.Ok(v, g), c.loc, ConditionalCode(c, gc, ga, gb, Width(t)), fuel)
  {
    hide Run, Step, BitsOf, ConditionalCode, At, KeepsTemps, RepVars;
    ConditionalAt(x.code, s.top.pc, c, gc, ga, gb, Width(t));
    var p2 := s.top.pc + |gc.code| + 1 + |ga.code|;
    var p4 := p2 + 4 + |gb.code|;
    var phi := Phi(gb.c.loc, Width(t), ga.c.lab, ga.v, gb.c.lab, gb.v);
    var ge := if first then ga else gb;
    s' := FinishArm(x, s2, if first then p2 else p4, p4 + 3, ge.c.lab, c.lab + 2, phi, ge.v, Rep(v));
    n := n2 + 3;
    StepsLater(x.mp, s, n2, s2, 3, s');
    KeepsTrans(s, s2, s', c.loc, c.loc, gb.c.loc);
    TempHolds(s'.top, gb.c.loc, v);
    ConditionalEnds(c, gc, ga, gb, Width(t));
  }

  lemma ConditionalEnds(c: Ctr, gc: CodeGen, ga: ExpGen, gb: ExpGen, w: nat)
    ensures var g := ConditionalCode(c, gc, ga, gb, w); g.v == Temp(gb.c.loc) && g.c.loc == gb.c.loc + 1
  {
  }

  // Conditions

  /** The truth value before the negation that a node may carry. */
  function Unnegated(r: S.Res<bool>, neg: bool): S.Res<bool> {
    if r.Ok? then r.(v := r.v != neg) else r
  }

  lemma {:induction false} SimCond(x: Ctx, fuel: nat, g: S.Glob, c: Ctr, cond: Cond, tl: nat, fl: nat, s: State)
    returns (n: nat, s': State)
    requires Linked(x.p, x.mp) && LowersCond(cond) && Ready(x, c.loc, g, s, GenCond(x.ls, c, cond, tl, fl).code)
    requires Placed(x.code, tl) && Placed(x.code, fl)
    ensures CondPost(x, s, n, s', S.EvalCond(fuel, x.p, x.env, x.store, g, cond), c.loc, tl, fl, fuel)
    decreases fuel, 1, cond, 2
  {
    hide Ready, Linked, LowersCond, S.EvalCond, GenPlainCond;
    var t, f := if cond.negate then fl else tl, if cond.negate then tl else fl;
    if cond.BinCond? {
      n, s' := SimBinCond(x, fuel, g, c, cond, t, f, s);
    } else {
      n, s' := SimCompar(x, fuel, g, c, cond, t, f, s);
    }
  }

  lemma {:induction false} SimBinCond(x: Ctx, fuel: nat, g: S.Glob, c: Ctr, cond: Cond, tl: nat, fl: nat, s: State)
    returns (n: nat, s': State)
    requires cond.BinCond?
    requires Linked(x.p, x.mp) && LowersCond(cond) && Ready(x, c.loc, g, s, GenPlainCond(x.ls, c, cond, tl, fl).code)
    requires Placed(x.code, tl) && Placed(x.code, fl)
    ensures CondPost(x, s, n, s', Unnegated(S.EvalCond(fuel, x.p, x.env, x.store, g, cond), cond.negate),
                     c.loc, tl, fl, fuel)
    decreases fuel, 1, cond, 1
  {
    hide Rel, Run, Step, Linked, GenCond, At, KeepsTemps, RepVars, LabelPos, UniqueLabels, Shares;
    var nl := c.lab;
    var c0 := c.(lab := nl + 1);
    var lt, lf := if cond.cop.And? then nl else tl, if cond.cop.And? then fl else nl;
    var gl := GenCond(x.ls, c0, cond.lc, lt, lf);
    var gr := GenCond(x.ls, gl.c, cond.rc, tl, fl);
    var code := GenPlainCond(x.ls, c, cond, tl, fl).code;
    var mid := s.top.pc + |gl.code|;
    AtCat(x.code, s.top.pc, gl.code + [Label(nl)], gr.code);
    AtCat(x.code, s.top.pc, gl.code, [Label(nl)]);
    AtOne(x.code, mid, Label(nl));
    LabelPosIs(x.code, nl, mid);
    ReadyHead(x, c.loc, g, s, code, gl.code);
    n, s' := SimCond(x, fuel, g, c0, cond.lc, lt, lf, s);
    var rl := S.EvalCond(fuel, x.p, x.env, x.store, g, cond.lc);
    if rl.Stop? || rl.v == cond.cop.Or? {
      return;
    }
    FreshCond(x.ls, c0, cond.lc, lt, lf, 0);
    var n1, s1 := n, s';
    ReadyNext(x, c.loc, gl.c.loc, g, rl.g, s, s1, code, gr.code);
    var n2, s2 := SimCond(x, fuel, rl.g, gl.c, cond.rc, tl, fl, s1);
    var rr := S.EvalCond(fuel, x.p, x.env, x.store, rl.g, cond.rc);
    n, s' := n1 + n2, s2;
    if rr.Stop? {
      StopLater(x.mp, s, n1, s1, n2, rr.why, fuel);
    } else {
      StepsLater(x.mp, s, n1, s1, n2, s2);
      KeepsTrans(s, s1, s2, c.loc, c.loc, gl.c.loc);
    }
  }

  lemma {:induction false} SimCompar(x: Ctx, fuel: nat, g: S.Glob, c: Ctr, cond: Cond, tl: nat, fl: nat, s: State)
    returns (n: nat, s': State)
    requires cond.Compar?
    requires Linked(x.p, x.mp) && LowersCond(cond) && Ready(x, c.loc, g, s, GenPlainCond(x.ls, c, cond, tl, fl).code)
    requires Placed(x.code, tl) && Placed(x.code, fl)
    ensures CondPost(x, s, n, s', Unnegated(S.EvalCond(fuel, x.p, x.env, x.store, g, cond), cond.negate),
                     c.loc, tl, fl, fuel)
    decreases fuel, 1, cond, 1
  {
    hide Rel, Run, Step, Linked, GenExp, GenTyped, S.EvalExp, S.EvalAs, At, Lowers, KeepsTemps, LowersAs, Holds,
      RepVars, Shares, LabelPos, UniqueLabels, S.Compare;
    var t := TyOf(cond.le);
    SameType(x.ls, c, cond.le);
    var gl := GenExp(x.ls, c, cond.le, t);
    var gr := GenExp(x.ls, gl.c, cond.re, t);
    var code := GenPlainCond(x.ls, c, cond, tl, fl).code;
    var cmp := Cmp(gr.c.loc, cond.cmp, Width(t), gl.v, gr.v);
    var br := CondBr(Temp(gr.c.loc), tl, fl);
    assert gl.code + gr.code + [] == gl.code + gr.code;
    AtCat(x.code, s.top.pc, gl.code + gr.code, [cmp, br]);
    AtCat(x.code, s.top.pc, gl.code, gr.code);
    n, s' := SimTyped(x, fuel, g, c, cond.le, s);
    var rl := S.EvalExp(fuel, x.p, x.env, x.store, g, cond.le);
    if rl.Stop? {
      return;
    }
    FreshExp(x.ls, c, cond.le, t, 0);
    var n1, s1 := n, s';
    ReadyNext(x, c.loc, gl.c.loc, g, rl.g, s, s1, code, gr.code);
    var n2, s2 := SimExp(x, fuel, rl.g, gl.c, cond.re, t, s1);
    var rr := S.EvalAs(fuel, x.p, x.env, x.store, rl.g, cond.re, t);
    n, s' := n1 + n2, s2;
    if rr.Stop? {
      StopLater(x.mp, s, n1, s1, n2, rr.why, fuel);
      return;
    }
    FreshExp(x.ls, gl.c, cond.re, t, 0);
    StepsLater(x.mp, s, n1, s1, n2, s2);
    KeepsTrans(s, s1, s2, c.loc, c.loc, gl.c.loc);
    HoldsKept(s1, s2, gl.v, rl.v, gl.c.loc, gr.c.loc);
    AtTwo(x.code, s2.top.pc, cmp, br);
    n, s' := Compared(x, s, n, s2, cmp, tl, fl, rl.v, rr.v, rr.g, c.loc, fuel);
  }

  lemma Compared(x: Ctx, s: State, n2: nat, s2: State, cmp: Instr, tl: nat, fl: nat, a: S.Value, b: S.Value,
                 g: S.Glob, lo: nat, fuel: nat)
    returns (n: nat, s': State)
    requires cmp.Cmp? && a.ty == b.ty && cmp.w == Width(a.ty) && lo <= cmp.dst
    requires Inside(x, s2) && s2.top.pc + 1 < |x.code|
    requires x.code[s2.top.pc] == cmp && x.code[s2.top.pc + 1] == CondBr(Temp(cmp.dst), tl, fl)
    requires Holds(s2.top, cmp.a, a, cmp.dst) && Holds(s2.top, cmp.b, b, cmp.dst)
    requires Placed(x.code, tl) && Placed(x.code, fl)
    requires Steps(x.mp, s, n2, s2) && Keeps(s, s2, lo) && Shares(s2, g)
    ensures CondPost(x, s, n, s', S.Ok(S.Compare(cmp.cmp, a.n, b.n), g), lo, tl, fl, fuel)
  {
    hide Run, Step, BitsOf, KeepsTemps, RepVars, S.Compare;
    s' := Branches(x, s2, cmp, tl, fl, a, b);
    n := n2 + 2;
    StepsLater(x.mp, s, n2, s2, 2, s');
    KeepsTrans(s, s2, s', lo, lo, cmp.dst);
  }

  lemma Branches(x: Ctx, s: State, cmp: Instr, tl: nat, fl: nat, a: S.Value, b: S.Value)
    returns (s': State)
    requires cmp.Cmp? && a.ty == b.ty && cmp.w == Width(a.ty)
    requires Inside(x, s) && s.top.pc + 1 < |x.code|
    requires x.code[s.top.pc] == cmp && x.code[s.top.pc + 1] == CondBr(Temp(cmp.dst), tl, fl)
    requires BitsOf(s.top, cmp.w, cmp.a) == Some(Rep(a)) && BitsOf(s.top, cmp.w, cmp.b) == Some(Rep(b))
    requires Placed(x.code, tl) && Placed(x.code, fl)
    ensures Steps(x.mp, s, 2, s')
    ensures var l := if S.Compare(cmp.cmp, a.n, b.n) then tl else fl;
            s' == s.(top := s.top.(temps := s'.top.temps, pc := LabelPos(x.code, l) + 1, prev := s.top.cur, cur := l))
    ensures Keeps(s, s', cmp.dst)
  {
    hide Step, Run, BitsOf, ToBits, CmpBits, S.Compare;
    var on := S.Compare(cmp.cmp, a.n, b.n);
    CompareIs(cmp.cmp, cmp.w, a.n, b.n);
    StepCmp(x.mp, s, cmp, a.n, b.n);
    OneStep(x.mp, s);
    var s1 := Defined(s, cmp.dst, Flag(on));
    var l := if on then tl else fl;
    StepCondBr(x.mp, s1, cmp.dst, tl, fl, on);
    s' := GoTo(s1, LabelPos(x.code, l), l);
    StepLater(x.mp, s, 1, s1, s');
  }

  // Calls

  lemma {:induction false} SimArgs(x: Ctx, fuel: nat, g: S.Glob, c: Ctr, es: seq<Exp>, ts: seq<Ty>, s: State)
    returns (n: nat, s': State)
    requires Linked(x.p, x.mp) && LowersArgs(es, ts) && Ready(x, c.loc, g, s, GenArgs(x.ls, c, es, ts).code)
    ensures ArgsPost(x, s, n, s', S.EvalArgs(fuel, x.p, x.env, x.store, g, es, ts), c.loc, GenArgs(x.ls, c, es, ts),
                     fuel)
    decreases fuel, 1, es, 1
  {
    hide Rel, Run, Step, Linked, GenExp, S.EvalAs, Lowers, BitsOf, KeepsTemps, At;
    n, s' := 0, s;
    if es == [] || ts == [] {
      Still(x, c.loc, g, s, GenArgs(x.ls, c, es, ts).code);
      assert Reps([]) == [];
      return;
    }
    var ge := GenExp(x.ls, c, es[0], ts[0]);
    var gr := GenArgs(x.ls, ge.c, es[1..], ts[1..]);
    var code := GenArgs(x.ls, c, es, ts).code;
    AtCat(x.code, s.top.pc, ge.code, gr.code);
    n, s' := SimExp(x, fuel, g, c, es[0], ts[0], s);
    var r := S.EvalAs(fuel, x.p, x.env, x.store, g, es[0], ts[0]);
    if r.Stop? {
      return;
    }
    FreshExp(x.ls, c, es[0], ts[0], 0);
    var n1, s1 := n, s';
    ReadyNext(x, c.loc, ge.c.loc, g, r.g, s, s1, code, gr.code);
    var n2, s2 := SimArgs(x, fuel, r.g, ge.c, es[1..], ts[1..], s1);
    var rs := S.EvalArgs(fuel, x.p, x.env, x.store, r.g, es[1..], ts[1..]);
    n, s' := n1 + n2, s2;
    if rs.Stop? {
      StopLater(x.mp, s, n1, s1, n2, rs.why, fuel);
      return;
    }
    StepsLater(x.mp, s, n1, s1, n2, s2);
    KeepsTrans(s, s1, s2, c.loc, c.loc, ge.c.loc);
    HoldsKept(s1, s2, ge.v, r.v, ge.c.loc, ge.c.loc);
    assert Reps([r.v] + rs.v) == [Rep(r.v)] + Reps(rs.v);
  }

  /** The state of the caller once a call is over. */
  function AfterCall(s: State, g: S.Glob, i: Instr, v: Option<S.Value>): State {
    var t := s.(vars := RepVars(g.vars), events := g.events, answers := g.answers);
    if i.CallExp? && v.Some? then Defined(t, i.dst, Rep(v.value)) else Next(t)
  }

  predicate CallPost(mp: MProgram, s: State, n: nat, res: S.Res<Option<S.Value>>, i: Instr, fuel: nat) {
    match res
    case Stop(why) => StopPost(mp, s, n, why, fuel)
    case Ok(v, g') => Steps(mp, s, n, AfterCall(s, g', i, v))
  }

  /** The call instruction for a signature. */
  predicate Calls(i: Instr, sig: Sig, args: seq<CallArg>) {
    if sig.ret.Void? then i == CallVoid(sig.name, args)
    else i.CallExp? && i.w == Width(sig.ret) && i.fn == sig.name && i.args == args
  }

  lemma {:induction false} SimCallExp(x: Ctx, fuel: nat, g: S.Glob, c: Ctr, e: Exp, s: State)
    returns (n: nat, s': State)
    requires e.Call?
    requires Linked(x.p, x.mp) && Lowers(e) && Ready(x, c.loc, g, s, GenTyped(x.ls, c, e).code)
    ensures ExpPost(x, s, n, s', S.EvalExp(fuel, x.p, x.env, x.store, g, e), c.loc, GenTyped(x.ls, c, e), fuel)
    decreases fuel, 1, e, 1
  {
    hide Rel, Run, Step, Linked, GenArgs, S.EvalArgs, S.CallFn, BitsOf;
    var ga := GenArgs(x.ls, c, e.args, e.sig.params);
    var code := GenTyped(x.ls, c, e).code;
    var i := if e.sig.ret.Void? then CallVoid(e.sig.name, ga.vs)
             else CallExp(ga.c.loc, Width(e.sig.ret), e.sig.name, ga.vs);
    AtCat(x.code, s.top.pc, ga.code, [i]);
    n, s' := SimArgs(x, fuel, g, c, e.args, e.sig.params, s);
    var ra := S.EvalArgs(fuel, x.p, x.env, x.store, g, e.args, e.sig.params);
    if ra.Stop? {
      return;
    }
    FreshArgs(x.ls, c, e.args, e.sig.params, 0);
    var n1, s1 := n, s';
    AtOne(x.code, s1.top.pc, i);
    var n2 := SimCall(x.p, x.mp, fuel, ra.g, e.sig, ra.v, i, ga.vs, s1);
    var r := S.CallFn(fuel, x.p, e.sig, ra.v, ra.g);
    n := n1 + n2;
    if r.Stop? {
      StopLater(x.mp, s, n1, s1, n2, r.why, fuel);
    } else {
      s' := AfterCall(s1, r.g, i, r.v);
      StepsLater(x.mp, s, n1, s1, n2, s');
      if r.v.Some? && r.v.value.ty == e.sig.ret {
        TempHolds(s'.top, ga.c.loc, r.v.value);
      }
    }
  }

  /** A call that leaves the module shows the same arguments and takes the same answer. */
  lemma SimExtern(mp: MProgram, s: State, g: S.Glob, sig: Sig, vals: seq<S.Value>, i: Instr, args: seq<CallArg>,
                  fuel: nat)
    requires Current(mp, s, i) && Calls(i, sig, args) && sig.name !in mp
    requires ArgBits(s.top, args) == Some(Reps(vals)) && Shares(s, g)
    ensures CallPost(mp, s, 1, S.CallExtern(sig, vals, g), i, fuel)
  {
    hide Run, Step, ArgBits, RepVars, Reps, ToBits, S.Numbers;
    StepOutside(mp, s, i, sig.name, args, vals);
    OneStep(mp, s);
    if g.answers != [] && IsValueTy(sig.ret) {
      RepMk(sig.ret, g.answers[0]);
    }
  }

  /** A call runs the body of the callee on a frame of its own and comes back with its value. */
  lemma {:induction false} SimCall(p: Program, mp: MProgram, fuel: nat, g: S.Glob, sig: Sig, vals: seq<S.Value>,
                                   i: Instr, args: seq<CallArg>, s: State)
    returns (n: nat)
    requires Linked(p, mp) && Current(mp, s, i) && Calls(i, sig, args)
    requires ArgBits(s.top, args) == Some(Reps(vals)) && Shares(s, g)
    ensures CallPost(mp, s, n, S.CallFn(fuel, p, sig, vals, g), i, fuel)
    decreases fuel, 0, 1
  {
    hide Run, Step, Linked, S.ExecStmts, RepVars, ArgBits, GenFunc, LowersStmts;
    n := 0;
    if fuel == 0 {
      Zero(mp, s);
      return;
    }
    CallKind(mp, s, i, sig, args);
    OneStep(mp, s);
    n := 1;
    LinkedKeys(p, mp, sig.name);
    if sig.name !in p {
      SimExtern(mp, s, g, sig, vals, i, args, fuel);
      return;
    }
    StepCall(mp, s, sig.name, args, Reps(vals));
    var f := p[sig.name];
    if f.sig != sig || |f.params| != |vals| || !Distinct(f.params) || !S.ArgsMatch(vals, sig.params) {
      return;
    }
    var s1 := s.(top := Fresh0(sig.name, Reps(vals)), rest := Under(s.top, s.rest));
    var n2, s2 := SimFunc(p, mp, fuel, g, sig, vals, s1);
    n := 1 + n2;
    var r := S.CallFn(fuel, p, sig, vals, g);
    if r.Stop? {
      StopLaterBy(mp, s, 1, s1, n2, r.why, fuel, fuel - 1);
    } else {
      StepsLater(mp, s, 1, s1, n2, s2);
      SimLeave(mp, s, s2, i, sig, r.v, r.g);
      StepLater(mp, s, 1 + n2, s2, AfterCall(s, r.g, i, r.v));
      n := n + 1;
    }
  }

  /** A function body, from its first instruction to a return instruction for the value of the call. */
  lemma {:induction false} SimFunc(p: Program, mp: MProgram, fuel: nat, g: S.Glob, sig: Sig, vals: seq<S.Value>,
                                   s: State)
    returns (n: nat, s': State)
    requires Linked(p, mp) && fuel > 0 && sig.name in p && Shares(s, g)
    requires s.top == Fresh0(sig.name, Reps(vals))
    ensures match S.CallFn(fuel, p, sig, vals, g)
            case Stop(why) => StopPost(mp, s, n, why, fuel - 1)
            case Ok(v, g') =>
              && Steps(mp, s, n, s') && s'.rest == s.rest && Shares(s', g') && v.None? == sig.ret.Void?
              && s'.top.fn in mp && Leaving(mp[s'.top.fn], s', v)
    decreases fuel, 0, 0
  {
    hide Run, Step, Linked, S.ExecStmts, RepVars, GenFunc, LowersStmts;
    n, s' := 0, s;
    var f := p[sig.name];
    if f.sig != sig || |f.params| != |vals| || !Distinct(f.params) || !S.ArgsMatch(vals, sig.params) {
      return;
    }
    var el, kl := LinkedFunc(p, mp, sig.name);
    var n2, s2 := SimEntry(p, mp, f, el, kl, g, vals, s);
    var np := |f.params|;
    var c := Ctr(np, 0);
    var ls := ParamLocals(f.params, sig.params, np);
    var x := Ctx(p, mp, mp[sig.name], [S.ParamScope(f.params)], vals, ls);
    var n3, s3 := SimStmts(x, fuel - 1, sig.ret, g, el, kl, c, f.body, s2);
    var r := S.ExecStmts(fuel - 1, p, sig.ret, x.env, vals, g, f.body);
    n, s' := n2 + n3, s3;
    if r.Halt? {
      StopLater(mp, s, n2, s2, n3, r.why, fuel - 1);
    } else {
      if r.out.Normal? && Exits(f.body) {
        ExitingBlock(fuel - 1, p, sig.ret, x.env, vals, g, f.body);
      }
      if (r.out.Returned? && (r.out.v.None? == sig.ret.Void?)) || (r.out.Normal? && sig.ret.Void?) {
        StepsLater(mp, s, n2, s2, n3, s3);
        if r.out.Normal? {
          FuncEnd(x, f, el, kl, s2.top.pc, s3);
        }
      }
    }
  }

  lemma Zero(mp: MProgram, s: State)
    ensures Steps(mp, s, 0, s)
  {
  }

  lemma CallKind(mp: MProgram, s: State, i: Instr, sig: Sig, args: seq<CallArg>)
    requires Current(mp, s, i) && Calls(i, sig, args)
    ensures Current(mp, s, CallVoid(sig.name, args)) || exists d, w :: Current(mp, s, CallExp(d, w, sig.name, args))
  {
    if i.CallExp? {
      assert Current(mp, s, CallExp(i.dst, i.w, sig.name, args));
    }
  }

  lemma LinkedKeys(p: Program, mp: MProgram, f: string)
    requires Linked(p, mp)
    ensures f in p <==> f in mp
  {
    assert f in p.Keys <==> f in mp.Keys;
  }

  lemma LinkedFunc(p: Program, mp: MProgram, f: string)
    returns (el: nat, kl: nat)
    requires Linked(p, mp) && f in p
    ensures f in mp && |p[f].params| == |p[f].sig.params| && LowersStmts(p[f].sig.ret, p[f].body)
    ensures mp[f] == GenFunc(p[f], el, kl) && UniqueLabels(mp[f])
  {
    LinkedKeys(p, mp, f);
    el, kl :| mp[f] == GenFunc(p[f], el, kl);
    NamesAreFresh(p[f], el, kl);
  }

  lemma AtStart(code: Code)
    ensures At(code, 0, code)
  {
  }

  lemma FuncAt(f: Func, el: nat, kl: nat)
    requires |f.params| == |f.sig.params|
    ensures var n := |f.params|;
            var init := if f.sig.name == "main" then 1 else 0;
            var code := GenFunc(f, el, kl);
            var body := GenBlock(f.sig.ret, el, kl, ParamLocals(f.params, f.sig.params, n), Ctr(n, 0), f.body).code;
            && At(code, 0, GenParams(f.params, f.sig.params, n)) && |GenParams(f.params, f.sig.params, n)| == 2 * n
            && (init == 1 ==> 2 * n < |code| && code[2 * n] == InitRt)
            && At(code, 2 * n + init, body)
            && (f.sig.ret.Void? && !Exits(f.body) ==>
                  2 * n + init + |body| < |code| && code[2 * n + init + |body|] == RetVoid)
  {
    hide At, GenBlock, GenParams, Exits;
    var n := |f.params|;
    var code := GenFunc(f, el, kl);
    var k1 := GenParams(f.params, f.sig.params, n);
    var k2 := if f.sig.name == "main" then [InitRt] else [];
    var body := GenBlock(f.sig.ret, el, kl, ParamLocals(f.params, f.sig.params, n), Ctr(n, 0), f.body).code;
    var k4 := if f.sig.ret.Void? && !Exits(f.body) then [RetVoid] else [];
    ParamsLength(f.params, f.sig.params, n);
    assert At(code, 0, k1 + k2 + body + k4) by { AtStart(code); }
    AtCat(code, 0, k1 + k2 + body, k4);
    AtCat(code, 0, k1 + k2, body);
    AtCat(code, 0, k1, k2);
    if f.sig.name == "main" {
      AtOne(code, |k1|, InitRt);
    }
    if f.sig.ret.Void? && !Exits(f.body) {
      AtOne(code, |k1| + |k2| + |body|, RetVoid);
    }
  }

  lemma {:induction false} ParamsLength(params: seq<string>, ts: seq<Ty>, n: nat)
    requires n <= |params| && n <= |ts|
    ensures |GenParams(params, ts, n)| == 2 * n
  {
    if n > 0 {
      ParamsLength(params, ts, n - 1);
    }
  }

  /** The code that gives each parameter a cell and stores its argument there. */
  lemma {:induction false} SimParams(mp: MProgram, code: Code, params: seq<string>, ts: seq<Ty>, vals: seq<S.Value>,
                                     k: nat, s: State)
    returns (s': State)
    requires |params| == |ts| == |vals| && k <= |vals| && S.ArgsMatch(vals, ts)
    requires s.top.fn in mp && mp[s.top.fn] == code && At(code, 0, GenParams(params, ts, k))
    requires s.top == Fresh0(s.top.fn, Reps(vals))
    ensures Steps(mp, s, 2 * k, s')
    ensures s' == s.(top := s.top.(pc := 2 * k, temps := s'.top.temps, mem := Reps(vals[..k])))
    ensures forall j :: 0 <= j < k ==> j in s'.top.temps && s'.top.temps[j] == Addr(j)
  {
    hide Run, Step, GenParams;
    if k == 0 {
      Zero(mp, s);
      s' := s;
      assert Reps(vals[..0]) == [];
      return;
    }
    var j := k - 1;
    var w := Width(ts[j]);
    ParamsStep(code, params, ts, k);
    var s1 := SimParams(mp, code, params, ts, vals, j, s);
    var s2 := Defined(s1.(top := s1.top.(mem := s1.top.mem + [Undef])), j, Addr(j));
    StepAlloca(mp, s1, j, w);
    StepLater(mp, s, 2 * j, s1, s2);
    var t := s2.(top := s2.top.(mem := s1.top.mem + [Rep(vals[j])]));
    s' := Next(t);
    ArgCell(s2, w, j, vals, s1.top.mem);
    StepStore(mp, s2, Store(w, Temp(j), Arg(j)), Rep(vals[j]), t);
    StepLater(mp, s, 2 * j + 1, s2, s');
    assert vals[..k] == vals[..j] + [vals[j]];
    assert Reps(vals[..k]) == Reps(vals[..j]) + [Rep(vals[j])];
  }

  lemma ArgCell(s: State, w: nat, j: nat, vals: seq<S.Value>, mem: seq<MVal>)
    requires j < |vals| && w == Width(vals[j].ty) && s.top.args == Reps(vals)
    requires |mem| == j && s.top.mem == mem + [Undef]
    requires j in s.top.temps && s.top.temps[j] == Addr(j)
    ensures BitsOf(s.top, w, Arg(j)) == Some(Rep(vals[j]))
    ensures WriteCell(s, Temp(j), Rep(vals[j])) == Some(s.(top := s.top.(mem := mem + [Rep(vals[j])])))
  {
    assert (mem + [Undef])[j := Rep(vals[j])] == mem + [Rep(vals[j])];
  }

  lemma StepAlloca(mp: MProgram, s: State, dst: nat, w: nat)
    requires Current(mp, s, Alloca(dst, w))
    ensures Step(mp, s) == Running(Defined(s.(top := s.top.(mem := s.top.mem + [Undef])), dst, Addr(|s.top.mem|)))
  {
  }

  lemma ParamsStep(code: Code, params: seq<string>, ts: seq<Ty>, k: nat)
    requires 0 < k <= |params| && k <= |ts| && At(code, 0, GenParams(params, ts, k))
    ensures var w := Width(ts[k - 1]);
            && At(code, 0, GenParams(params, ts, k - 1))
            && 2 * k <= |code| && code[2 * k - 2] == Alloca(k - 1, w)
            && code[2 * k - 1] == Store(w, Temp(k - 1), Arg(k - 1))
  {
    hide At;
    var w := Width(ts[k - 1]);
    var last := [Alloca(k - 1, w), Store(w, Temp(k - 1), Arg(k - 1))];
    ParamsLength(params, ts, k - 1);
    AtCat(code, 0, GenParams(params, ts, k - 1), last);
    AtTwo(code, 2 * (k - 1), last[0], last[1]);
  }

  lemma {:induction false} SimEntry(p: Program, mp: MProgram, f: Func, el: nat, kl: nat, g: S.Glob,
                                    vals: seq<S.Value>, s: State)
    returns (n: nat, s': State)
    requires |f.params| == |f.sig.params| == |vals| && Distinct(f.params) && S.ArgsMatch(vals, f.sig.params)
    requires s.top == Fresh0(f.sig.name, Reps(vals)) && Shares(s, g)
    requires f.sig.name in mp && mp[f.sig.name] == GenFunc(f, el, kl) && UniqueLabels(mp[f.sig.name])
    ensures var np := |f.params|;
            var ls := ParamLocals(f.params, f.sig.params, np);
            var x := Ctx(p, mp, mp[f.sig.name], [S.ParamScope(f.params)], vals, ls);
            && Steps(mp, s, n, s') && s'.rest == s.rest && s'.top.fn == s.top.fn
            && s'.top.pc == 2 * np + (if f.sig.name == "main" then 1 else 0)
            && Ready(x, np, g, s', GenStmts(f.sig.ret, el, kl, ls, Ctr(np, 0), f.body).code)
  {
    hide Run, Step, GenStmts, GenParams, GenFunc, RepVars, At;
    var np := |f.params|;
    FuncAt(f, el, kl);
    s' := SimParams(mp, mp[f.sig.name], f.params, f.sig.params, vals, np, s);
    n := 2 * np;
    assert vals[..np] == vals;
    EntryRel(f, vals, g, s');
    if f.sig.name == "main" {
      var s1 := s';
      s' := Next(s1);
      StepInit(mp, s1);
      StepLater(mp, s, n, s1, s');
      n := n + 1;
      EntryRel(f, vals, g, s');
    }
  }

  lemma StepInit(mp: MProgram, s: State)
    requires Current(mp, s, InitRt)
    ensures Step(mp, s) == Running(Next(s))
  {
  }

  lemma EntryRel(f: Func, vals: seq<S.Value>, g: S.Glob, s: State)
    requires |f.params| == |f.sig.params| == |vals| && Distinct(f.params)
    requires s.top.mem == Reps(vals) && Shares(s, g)
    requires forall j :: 0 <= j < |vals| ==> j in s.top.temps && s.top.temps[j] == Addr(j)
    ensures Rel([S.ParamScope(f.params)], ParamLocals(f.params, f.sig.params, |vals|), |vals|, vals, g, s)
  {
    hide Reps, RepVars;
    var env := [S.ParamScope(f.params)];
    assert env[..0] == [];
    assert Flatten(env) == S.ParamScope(f.params);
  }

  lemma FuncEnd(x: Ctx, f: Func, el: nat, kl: nat, start: nat, s: State)
    requires |f.params| == |f.sig.params| && f.sig.ret.Void? && !Exits(f.body)
    requires x.ls == ParamLocals(f.params, f.sig.params, |f.params|)
    requires s.top.fn in x.mp && x.mp[s.top.fn] == x.code && x.code == GenFunc(f, el, kl)
    requires start == 2 * |f.params| + (if f.sig.name == "main" then 1 else 0)
    requires s.top.pc == start + |GenStmts(f.sig.ret, el, kl, x.ls, Ctr(|f.params|, 0), f.body).code|
    ensures Current(x.mp, s, RetVoid)
  {
    hide GenStmts, GenFunc, GenParams;
    FuncAt(f, el, kl);
  }

  lemma SimLeave(mp: MProgram, s: State, s3: State, i: Instr, sig: Sig, v: Option<S.Value>, g: S.Glob)
    requires Current(mp, s, i) && (if sig.ret.Void? then i.CallVoid? else i.CallExp?)
    requires s3.rest == Under(s.top, s.rest) && Shares(s3, g) && v.None? == sig.ret.Void?
    requires s3.top.fn in mp && Leaving(mp[s3.top.fn], s3, v)
    ensures Step(mp, s3) == Running(AfterCall(s, g, i, v))
  {
    hide Step, BitsOf, RepVars;
    if v.Some? {
      StepRet(mp, s3, Width(v.value.ty), mp[s3.top.fn][s3.top.pc].v, Rep(v.value), s.top, s.rest);
    } else {
      StepRetVoid(mp, s3, s.top, s.rest);
    }
  }

  // Statements

  /** Like `Keeps`, but the cells may change. */
  predicate Stays(s: State, s': State, n: nat) {
    && s'.rest == s.rest && s'.top.fn == s.top.fn && s'.top.args == s.top.args
    && KeepsTemps(s.top.temps, s'.top.temps, n)
  }

  predicate Reached(mp: MProgram, s: State, n: nat, s': State, lo: nat, store: seq<S.Value>, g: S.Glob) {
    Steps(mp, s, n, s') && Stays(s, s', lo) && s'.top.mem == Reps(store) && Shares(s', g)
  }

  /** The machine is at the return instruction for a value. */
  predicate Leaving(code: Code, s: State, v: Option<S.Value>) {
    && s.top.pc < |code|
    && if v.None? then code[s.top.pc] == RetVoid
       else
         && code[s.top.pc].Ret? && code[s.top.pc].w == Width(v.value.ty)
         && BitsOf(s.top, Width(v.value.ty), code[s.top.pc].v) == Some(Rep(v.value))
  }

  /** Each outcome has its place: the end of the code, the two labels of the enclosing loop, or a return. */
  predicate StmtPost(mp: MProgram, code: Code, s: State, n: nat, s': State, res: S.StmtRes, lo: nat,
                     end: nat, ls: seq<Local>, hi: nat, el: nat, kl: nat, fuel: nat) {
    match res
    case Halt(why) => StopPost(mp, s, n, why, fuel)
    case Done(Normal, env', store', g') =>
      Reached(mp, s, n, s', lo, store', g') && s'.top.pc == end && Rel(env', ls, hi, store', g', s')
    case Done(Broke, _, store', g') =>
      Placed(code, el) ==> Reached(mp, s, n, s', lo, store', g') && s'.top.pc == LabelPos(code, el) + 1
    case Done(Continued, _, store', g') =>
      Placed(code, kl) ==> Reached(mp, s, n, s', lo, store', g') && s'.top.pc == LabelPos(code, kl) + 1
    case Done(Returned(v), _, store', g') =>
      Reached(mp, s, n, s', lo, store', g') && Leaving(code, s', v)
  }

  lemma StaysTrans(s: State, s1: State, s2: State, n: nat, n1: nat, n2: nat)
    requires Stays(s, s1, n1) && Stays(s1, s2, n2) && n <= n1 && n <= n2
    ensures Stays(s, s2, n)
  {
  }

  lemma KeepsStays(s: State, s': State, n: nat)
    requires Keeps(s, s', n)
    ensures Stays(s, s', n)
  {
  }

  lemma ReachedLater(mp: MProgram, s: State, n1: nat, s1: State, n2: nat, s': State, lo: nat, lo1: nat,
                     store: seq<S.Value>, g: S.Glob)
    requires Steps(mp, s, n1, s1) && Stays(s, s1, lo) && lo <= lo1 && Reached(mp, s1, n2, s', lo1, store, g)
    ensures Reached(mp, s, n1 + n2, s', lo, store, g)
  {
    hide Run, Stays;
    StepsLater(mp, s, n1, s1, n2, s');
    StaysTrans(s, s1, s', lo, lo, lo1);
  }

  /** A run before a statement does not change what the statement does. */
  lemma PostLater(x: Ctx, s: State, n1: nat, s1: State, n2: nat, s': State, res: S.StmtRes, lo: nat, lo1: nat,
                  end: nat, ls: seq<Local>, hi: nat, el: nat, kl: nat, fuel: nat, fuel1: nat)
    requires Steps(x.mp, s, n1, s1) && Stays(s, s1, lo) && lo <= lo1 && fuel <= fuel1 + n1
    requires StmtPost(x.mp, x.code, s1, n2, s', res, lo1, end, ls, hi, el, kl, fuel1)
    ensures StmtPost(x.mp, x.code, s, n1 + n2, s', res, lo, end, ls, hi, el, kl, fuel)
  {
    hide Run, Stays, Reached, Rel, Leaving, LabelPos;
    if res.Halt? {
      StopLaterBy(x.mp, s, n1, s1, n2, res.why, fuel, fuel1);
    } else if (res.out.Broke? && !Placed(x.code, el)) || (res.out.Continued? && !Placed(x.code, kl)) {
    } else {
      ReachedLater(x.mp, s, n1, s1, n2, s', lo, lo1, res.store, res.g);
    }
  }

  lemma StopLaterBy(mp: MProgram, s: State, n1: nat, s1: State, n2: nat, why: S.Why, fuel: nat, fuel1: nat)
    requires Steps(mp, s, n1, s1) && StopPost(mp, s1, n2, why, fuel1) && fuel <= fuel1 + n1
    ensures StopPost(mp, s, n1 + n2, why, fuel)
  {
    Then(mp, s, n1, s1, n2);
  }

  lemma HaltPost(x: Ctx, s: State, n: nat, s': State, why: S.Why, lo: nat, end: nat, ls: seq<Local>, hi: nat,
                 el: nat, kl: nat, fuel: nat)
    requires StopPost(x.mp, s, n, why, fuel)
    ensures StmtPost(x.mp, x.code, s, n, s', S.Halt(why), lo, end, ls, hi, el, kl, fuel)
  {
    hide StopPost;
  }

  /** Where the end is does not matter to a statement that does not get there. */
  lemma NoEnd(x: Ctx, s: State, n: nat, s': State, res: S.StmtRes, lo: nat, end: nat, end': nat,
              ls: seq<Local>, ls': seq<Local>, hi: nat, hi': nat, el: nat, kl: nat, fuel: nat)
    requires StmtPost(x.mp, x.code, s, n, s', res, lo, end, ls, hi, el, kl, fuel)
    requires res.Halt? || !res.out.Normal?
    ensures StmtPost(x.mp, x.code, s, n, s', res, lo, end', ls', hi', el, kl, fuel)
  {
    hide Reached, Rel, Leaving, StopPost;
  }

  lemma RelOuter(env: S.Env, ls: seq<Local>, lo: nat, hi: nat, store: seq<S.Value>, store': seq<S.Value>,
                 g: S.Glob, g': S.Glob, s: State, s': State)
    requires Rel(env, ls, lo, store, g, s) && Stays(s, s', lo) && lo <= hi
    requires |store| <= |store'| && s'.top.mem == Reps(store') && Shares(s', g')
    ensures Rel(env, ls, hi, store', g', s')
  {
    hide Reps, RepVars;
  }

  /** A statement that only evaluated something ends normally where the machine is. */
  lemma NormalHere(x: Ctx, lo: nat, hi: nat, g: S.Glob, g': S.Glob, s: State, n: nat, s': State,
                   el: nat, kl: nat, fuel: nat)
    requires Rel(x.env, x.ls, lo, x.store, g, s) && Steps(x.mp, s, n, s') && Keeps(s, s', lo) && Shares(s', g')
    requires lo <= hi
    ensures StmtPost(x.mp, x.code, s, n, s', S.Done(S.Normal, x.env, x.store, g'), lo, s'.top.pc, x.ls, hi, el, kl,
                     fuel)
  {
    hide Run, RepVars;
    RelKept(x.env, x.ls, lo, hi, x.store, g, g', s, s');
  }

  /** A branch at the end of a block is taken when the block ends normally. */
  lemma ThenBranch(x: Ctx, s: State, n: nat, s1: State, res: S.StmtRes, lo: nat, end: nat, ls: seq<Local>, hi: nat,
                   el: nat, kl: nat, fuel: nat, l: nat, p: nat)
    returns (m: nat, s': State)
    requires Inside(x, s) && StmtPost(x.mp, x.code, s, n, s1, res, lo, end, ls, hi, el, kl, fuel)
    requires end < |x.code| && x.code[end] == Br(l) && p < |x.code| && x.code[p] == Label(l)
    ensures StmtPost(x.mp, x.code, s, m, s', res, lo, p + 1, ls, hi, el, kl, fuel)
  {
    hide Run, Step, KeepsTemps, RepVars, Flatten, EnvOk, LocalsOk;
    m, s' := n, s1;
    if res.Done? && res.out.Normal? {
      StepBr(x.mp, s1, l, p);
      s' := GoTo(s1, p, l);
      StepLater(x.mp, s, n, s1, s');
      m := n + 1;
    } else {
      NoEnd(x, s, n, s1, res, lo, end, p + 1, ls, ls, hi, hi, el, kl, fuel);
    }
  }

  // Blocks

  lemma PushScope(env: S.Env, ls: seq<Local>, n: nat, store: seq<S.Value>, g: S.Glob, s: State)
    requires Rel(env, ls, n, store, g, s)
    ensures Rel(env + [[]], ls, n, store, g, s)
  {
    hide Reps, RepVars;
    var inner := env + [[]];
    assert inner[..|inner| - 1] == env;
    assert Flatten(inner) == Flatten(env) + [] == Flatten(env);
  }

  lemma {:induction false} SimBlock(x: Ctx, fuel: nat, ret: Ty, g: S.Glob, el: nat, kl: nat, c: Ctr, b: seq<Stmt>,
                                    s: State)
    returns (n: nat, s': State)
    requires Linked(x.p, x.mp) && LowersStmts(ret, b)
    requires Ready(x, c.loc, g, s, GenBlock(ret, el, kl, x.ls, c, b).code)
    ensures var gen := GenBlock(ret, el, kl, x.ls, c, b);
            StmtPost(x.mp, x.code, s, n, s', S.ExecBlock(fuel, x.p, ret, x.env, x.store, g, b), c.loc,
                     s.top.pc + |gen.code|, x.ls, gen.c.loc, el, kl, fuel)
    decreases fuel, 2, b, 1
  {
    hide Run, Step, Linked, LowersStmts, Rel, At, GenStmts, S.ExecStmts, Stays, Leaving, Reps, RepVars, LabelPos;
    PushScope(x.env, x.ls, c.loc, x.store, g, s);
    var x1 := x.(env := x.env + [[]]);
    n, s' := SimStmts(x1, fuel, ret, g, el, kl, c, b, s);
    FreshStmts(ret, el, kl, x.ls, c, b, 0);
    var r := S.ExecStmts(fuel, x.p, ret, x1.env, x.store, g, b);
    if r.Done? && r.out.Normal? {
      RelOuter(x.env, x.ls, c.loc, GenBlock(ret, el, kl, x.ls, c, b).c.loc, x.store, r.store, g, r.g, s, s');
    }
  }

  lemma {:induction false} SimStmts(x: Ctx, fuel: nat, ret: Ty, g: S.Glob, el: nat, kl: nat, c: Ctr, ss: seq<Stmt>,
                                    s: State)
    returns (n: nat, s': State)
    requires Linked(x.p, x.mp) && LowersStmts(ret, ss)
    requires Ready(x, c.loc, g, s, GenStmts(ret, el, kl, x.ls, c, ss).code)
    ensures var gen := GenStmts(ret, el, kl, x.ls, c, ss);
            StmtPost(x.mp, x.code, s, n, s', S.ExecStmts(fuel, x.p, ret, x.env, x.store, g, ss), c.loc,
                     s.top.pc + |gen.code|, gen.ls, gen.c.loc, el, kl, fuel)
    decreases fuel, 2, ss, 0
  {
    hide Run, Step, Linked, Rel, At, GenStmt, S.ExecStmt, KeepsTemps, Leaving, Reps, RepVars, LabelPos, Exits,
      CompilesStmt, NoMixedIf, EnvOk, UniqueLabels;
    var code := GenStmts(ret, el, kl, x.ls, c, ss).code;
    if ss == [] {
      Still(x, c.loc, g, s, code);
      n, s' := 0, s;
      NormalHere(x, c.loc, c.loc, g, g, s, 0, s, el, kl, fuel);
      return;
    }
    var gen := GenStmt(ret, el, kl, x.ls, c, ss[0]);
    StopsIs(ret, el, kl, x.ls, c, ss[0]);
    var r := S.ExecStmt(fuel, x.p, ret, x.env, x.store, g, ss[0]);
    if gen.stop {
      n, s' := SimStmt(x, fuel, ret, g, el, kl, c, ss[0], s);
      ExitingStmt(fuel, x.p, ret, x.env, x.store, g, ss[0]);
      return;
    }
    var rest := GenStmts(ret, el, kl, gen.ls, gen.c, ss[1..]);
    AtCat(x.code, s.top.pc, gen.code, rest.code);
    n, s' := SimStmt(x, fuel, ret, g, el, kl, c, ss[0], s);
    if r.Halt? || !r.out.Normal? {
      NoEnd(x, s, n, s', r, c.loc, s.top.pc + |gen.code|, s.top.pc + |code|, gen.ls, rest.ls,
            gen.c.loc, rest.c.loc, el, kl, fuel);
      return;
    }
    FreshStmt(ret, el, kl, x.ls, c, ss[0], 0);
    var n1, s1 := n, s';
    var x1 := x.(env := r.env, store := r.store, ls := gen.ls);
    var n2, s2 := SimStmts(x1, fuel, ret, r.g, el, kl, gen.c, ss[1..], s1);
    var rr := S.ExecStmts(fuel, x.p, ret, r.env, r.store, r.g, ss[1..]);
    n, s' := n1 + n2, s2;
    PostLater(x, s, n1, s1, n2, s2, rr, c.loc, gen.c.loc, s1.top.pc + |rest.code|, rest.ls, rest.c.loc,
              el, kl, fuel, fuel);
  }

  lemma {:induction false} SimStmt(x: Ctx, fuel: nat, ret: Ty, g: S.Glob, el: nat, kl: nat, c: Ctr, st: Stmt, s: State)
    returns (n: nat, s': State)
    requires Linked(x.p, x.mp) && LowersStmt(ret, st)
    requires Ready(x, c.loc, g, s, GenStmt(ret, el, kl, x.ls, c, st).code)
    ensures var gen := GenStmt(ret, el, kl, x.ls, c, st);
            StmtPost(x.mp, x.code, s, n, s', S.ExecStmt(fuel, x.p, ret, x.env, x.store, g, st), c.loc,
                     s.top.pc + |gen.code|, gen.ls, gen.c.loc, el, kl, fuel)
    decreases fuel, 2, st, 4
  {
    hide GenStmt, S.ExecStmt, StmtPost, Ready, Linked, LowersStmt;
    match st
    case VarDef(_, _, _, _) => n, s' := SimVarDef(x, fuel, ret, g, el, kl, c, st, s);
    case Assign(_, _, _, _) => n, s' := SimAssign(x, fuel, ret, g, el, kl, c, st, s);
    case If(_, _) => n, s' := SimIf(x, fuel, ret, g, el, kl, c, st, s);
    case IfElse(_, _, _) => n, s' := SimIfElse(x, fuel, ret, g, el, kl, c, st, s);
    case While(_, _) => n, s' := SimWhile(x, fuel, ret, g, el, kl, c, st, s);
    case Break => n, s' := SimJump(x, fuel, ret, g, el, kl, c, st, s);
    case Continue => n, s' := SimJump(x, fuel, ret, g, el, kl, c, st, s);
    case Return => n, s' := SimReturn(x, fuel, ret, g, el, kl, c, st, s);
    case ReturnValue(_) => n, s' := SimReturn(x, fuel, ret, g, el, kl, c, st, s);
    case CallStmt(_, _) => n, s' := SimCallStmt(x, fuel, ret, g, el, kl, c, st, s);
    case Block(_) => n, s' := SimBlockStmt(x, fuel, ret, g, el, kl, c, st, s);
    case Echo(_) => n, s' := SimEcho(x, fuel, ret, g, el, kl, c, st, s);
  }

  lemma {:induction false} SimBlockStmt(x: Ctx, fuel: nat, ret: Ty, g: S.Glob, el: nat, kl: nat,
                                        c: Ctr, st: Stmt, s: State)
    returns (n: nat, s': State)
    requires st.Block?
    requires Linked(x.p, x.mp) && LowersStmt(ret, st)
    requires Ready(x, c.loc, g, s, GenStmt(ret, el, kl, x.ls, c, st).code)
    ensures var gen := GenStmt(ret, el, kl, x.ls, c, st);
            StmtPost(x.mp, x.code, s, n, s', S.ExecStmt(fuel, x.p, ret, x.env, x.store, g, st), c.loc,
                     s.top.pc + |gen.code|, gen.ls, gen.c.loc, el, kl, fuel)
    decreases fuel, 2, st, 3
  {
    hide GenBlock, S.ExecBlock, CompilesStmts, NoMixedIfs, Linked, Rel, At, Reached, Leaving, StopPost;
    n, s' := SimBlock(x, fuel, ret, g, el, kl, c, st.body, s);
  }

  lemma {:induction false} SimJump(x: Ctx, fuel: nat, ret: Ty, g: S.Glob, el: nat, kl: nat, c: Ctr, st: Stmt, s: State)
    returns (n: nat, s': State)
    requires st.Break? || st.Continue?
    requires Linked(x.p, x.mp) && LowersStmt(ret, st)
    requires Ready(x, c.loc, g, s, GenStmt(ret, el, kl, x.ls, c, st).code)
    ensures var gen := GenStmt(ret, el, kl, x.ls, c, st);
            StmtPost(x.mp, x.code, s, n, s', S.ExecStmt(fuel, x.p, ret, x.env, x.store, g, st), c.loc,
                     s.top.pc + |gen.code|, gen.ls, gen.c.loc, el, kl, fuel)
    decreases fuel, 2, st, 3
  {
    hide Run, Step, Linked, Rel, At, KeepsTemps, Leaving, Reps, RepVars, LabelPos, UniqueLabels;
    var l := if st.Break? then el else kl;
    n, s' := 1, s;
    Still(x, c.loc, g, s, [Br(l)]);
    if Placed(x.code, l) {
      AtOne(x.code, s.top.pc, Br(l));
      StepBr(x.mp, s, l, LabelPos(x.code, l));
      OneStep(x.mp, s);
      s' := GoTo(s, LabelPos(x.code, l), l);
      MemIs(x, c.loc, g, s, [Br(l)]);
    }
  }

  lemma MemIs(x: Ctx, n: nat, g: S.Glob, s: State, piece: Code)
    requires Ready(x, n, g, s, piece)
    ensures s.top.mem == Reps(x.store)
  {
  }

  lemma {:induction false} SimReturn(x: Ctx, fuel: nat, ret: Ty, g: S.Glob, el: nat, kl: nat,
                                     c: Ctr, st: Stmt, s: State)
    returns (n: nat, s': State)
    requires st.Return? || st.ReturnValue?
    requires Linked(x.p, x.mp) && LowersStmt(ret, st)
    requires Ready(x, c.loc, g, s, GenStmt(ret, el, kl, x.ls, c, st).code)
    ensures var gen := GenStmt(ret, el, kl, x.ls, c, st);
            StmtPost(x.mp, x.code, s, n, s', S.ExecStmt(fuel, x.p, ret, x.env, x.store, g, st), c.loc,
                     s.top.pc + |gen.code|, gen.ls, gen.c.loc, el, kl, fuel)
    decreases fuel, 2, st, 3
  {
    hide Run, Step, Linked, Rel, At, KeepsTemps, Reps, RepVars, LabelPos, UniqueLabels, GenExp, S.EvalAs, LowersAs,
      BitsOf;
    var code := GenStmt(ret, el, kl, x.ls, c, st).code;
    MemIs(x, c.loc, g, s, code);
    if st.Return? {
      n, s' := 0, s;
      Still(x, c.loc, g, s, code);
      AtOne(x.code, s.top.pc, RetVoid);
    } else {
      var ge := GenExp(x.ls, c, st.e, ret);
      AtCat(x.code, s.top.pc, ge.code, [Ret(Width(ret), ge.v)]);
      n, s' := SimExp(x, fuel, g, c, st.e, ret, s);
      var r := S.EvalAs(fuel, x.p, x.env, x.store, g, st.e, ret);
      if r.Ok? {
        AtOne(x.code, s'.top.pc, Ret(Width(ret), ge.v));
      }
    }
  }

  /** A new cell and its zero. */
  lemma SimCell(x: Ctx, n: nat, g: S.Glob, s: State, t: Ty) returns (s': State)
    requires IsValueTy(t)
    requires Ready(x, n, g, s, [Alloca(n, Width(t)), Store(Width(t), Temp(n), Lit(0))])
    ensures Steps(x.mp, s, 2, s') && s'.top.pc == s.top.pc + 2
    ensures s'.top.mem == s.top.mem + [Rep(S.MkValue(t, 0))] && s'.top.temps == s.top.temps[n := Addr(|x.store|)]
    ensures s'.top.fn == s.top.fn && s'.top.args == s.top.args && s'.rest == s.rest
    ensures s'.vars == s.vars && s'.events == s.events && s'.answers == s.answers
  {
    hide Run, Step, Rel, At, Reps, RepVars, Rep;
    var w, k, v := Width(t), |x.store|, S.MkValue(t, 0);
    var alloca, store := Alloca(n, w), Store(w, Temp(n), Lit(0));
    AtTwo(x.code, s.top.pc, alloca, store);
    MemIs(x, n, g, s, [alloca, store]);
    RepsLength(x.store);
    var s1 := Defined(s.(top := s.top.(mem := s.top.mem + [Undef])), n, Addr(k));
    StepAlloca(x.mp, s, n, w);
    OneStep(x.mp, s);
    var filled := s1.(top := s1.top.(mem := s.top.mem + [Rep(v)]));
    NewCell(s1, s.top.mem, n, k, v);
    StepStore(x.mp, s1, store, Rep(v), filled);
    s' := Next(filled);
    StepLater(x.mp, s, 1, s1, s');
  }

  lemma VarDefIs(x: Ctx, fuel: nat, ret: Ty, g: S.Glob, el: nat, kl: nat, c: Ctr, st: Stmt)
    requires st.VarDef?
    ensures var w := Width(st.t);
            GenStmt(ret, el, kl, x.ls, c, st)
            == StmtGen([Alloca(c.loc, w), Store(w, Temp(c.loc), Lit(0))], c.(loc := c.loc + 1),
                       x.ls + [Local(st.x, st.t, c.loc)], false)
    ensures S.ExecStmt(fuel, x.p, ret, x.env, x.store, g, st)
            == if x.env == [] || !IsValueTy(st.t) || S.FindIn(x.env[|x.env| - 1], st.x).Some? then S.Halt(S.Wrong)
               else S.Done(S.Normal, S.Declare(x.env, st.x, |x.store|), x.store + [S.MkValue(st.t, 0)], g)
  {
    hide S.FindIn, S.Declare, S.MkValue;
  }

  lemma {:induction false} SimVarDef(x: Ctx, fuel: nat, ret: Ty, g: S.Glob, el: nat, kl: nat,
                                     c: Ctr, st: Stmt, s: State)
    returns (n: nat, s': State)
    requires st.VarDef?
    requires Linked(x.p, x.mp) && LowersStmt(ret, st)
    requires Ready(x, c.loc, g, s, GenStmt(ret, el, kl, x.ls, c, st).code)
    ensures var gen := GenStmt(ret, el, kl, x.ls, c, st);
            StmtPost(x.mp, x.code, s, n, s', S.ExecStmt(fuel, x.p, ret, x.env, x.store, g, st), c.loc,
                     s.top.pc + |gen.code|, gen.ls, gen.c.loc, el, kl, fuel)
    decreases fuel, 2, st, 3
  {
    hide Run, Step, Linked, Rel, At, KeepsTemps, Leaving, Reps, RepVars, LabelPos, UniqueLabels, GenStmt, S.ExecStmt,
      LowersStmt, S.FindIn, S.Declare;
    VarDefIs(x, fuel, ret, g, el, kl, c, st);
    n, s' := 0, s;
    if x.env == [] || !IsValueTy(st.t) || S.FindIn(x.env[|x.env| - 1], st.x).Some? {
      return;
    }
    s' := SimCell(x, c.loc, g, s, st.t);
    n := 2;
    DeclareRel(x, c.loc, g, s, s', st.x, st.t, S.MkValue(st.t, 0));
  }

  lemma RepsLength(vs: seq<S.Value>)
    ensures |Reps(vs)| == |vs|
  {
  }

  lemma NewCell(s: State, mem: seq<MVal>, id: nat, k: nat, v: S.Value)
    requires |mem| == k && s.top.mem == mem + [Undef] && id in s.top.temps && s.top.temps[id] == Addr(k)
    requires v.n == S.MkValue(v.ty, 0).n
    ensures BitsOf(s.top, Width(v.ty), Lit(0)) == Some(Rep(v))
    ensures WriteCell(s, Temp(id), Rep(v)) == Some(s.(top := s.top.(mem := mem + [Rep(v)])))
  {
    RepMk(v.ty, 0);
    assert (mem + [Undef])[k := Rep(v)] == mem + [Rep(v)];
  }

  lemma FlattenDeclare(env: S.Env, x: string, k: nat)
    requires env != []
    ensures Flatten(S.Declare(env, x, k)) == Flatten(env) + [S.Binding(x, k)]
  {
    var env' := S.Declare(env, x, k);
    var last := |env| - 1;
    assert env'[..last] == env[..last];
    assert Flatten(env[..last]) + (env[last] + [S.Binding(x, k)])
        == Flatten(env[..last]) + env[last] + [S.Binding(x, k)];
  }

  lemma {:induction false} FindNothing(s: S.Scope, x: string)
    requires S.FindIn(s, x).None?
    ensures forall i :: 0 <= i < |s| ==> s[i].name != x
  {
    if s != [] {
      FindNothing(s[1..], x);
      forall i | 0 <= i < |s| ensures s[i].name != x {
        if i > 0 {
          assert s[i] == s[1..][i - 1];
        }
      }
    }
  }

  lemma DeclareRel(x: Ctx, n: nat, g: S.Glob, s: State, s': State, name: string, t: Ty, v: S.Value)
    requires Rel(x.env, x.ls, n, x.store, g, s) && x.env != [] && S.FindIn(x.env[|x.env| - 1], name).None?
    requires s'.top.mem == s.top.mem + [Rep(v)] && s'.vars == s.vars && s'.events == s.events && s'.answers == s.answers
    requires s'.top.temps == s.top.temps[n := Addr(|x.store|)]
    requires s'.rest == s.rest && s'.top.fn == s.top.fn && s'.top.args == s.top.args
    ensures Rel(S.Declare(x.env, name, |x.store|), x.ls + [Local(name, t, n)], n + 1, x.store + [v], g, s')
    ensures s'.top.mem == Reps(x.store + [v]) && Shares(s', g) && Stays(s, s', n)
  {
    hide RepVars, Flatten, EnvOk, LocalsOk;
    var k := |x.store|;
    FlattenDeclare(x.env, name, k);
    DeclareEnv(x.env, name, k);
    DeclareLocals(Flatten(x.env), x.ls, s.top.temps, n, name, t, k);
    assert Reps(x.store + [v]) == Reps(x.store) + [Rep(v)];
  }

  lemma DeclareEnv(env: S.Env, name: string, k: nat)
    requires EnvOk(env, k) && env != [] && S.FindIn(env[|env| - 1], name).None?
    ensures EnvOk(S.Declare(env, name, k), k + 1)
  {
    hide Flatten;
    FlattenDeclare(env, name, k);
    FindNothing(env[|env| - 1], name);
    var env' := S.Declare(env, name, k);
    forall i | 0 <= i < |env'| ensures DistinctScope(env'[i]) {
      assert DistinctScope(env[i]);
    }
  }

  lemma DeclareLocals(flat: seq<S.Binding>, ls: seq<Local>, temps: map<nat, MVal>, n: nat, name: string, t: Ty, k: nat)
    requires LocalsOk(flat, ls, temps, n)
    ensures LocalsOk(flat + [S.Binding(name, k)], ls + [Local(name, t, n)], temps[n := Addr(k)], n + 1)
  {
  }

  lemma {:induction false} SimAssign(x: Ctx, fuel: nat, ret: Ty, g: S.Glob, el: nat, kl: nat,
                                     c: Ctr, st: Stmt, s: State)
    returns (n: nat, s': State)
    requires st.Assign?
    requires Linked(x.p, x.mp) && LowersStmt(ret, st)
    requires Ready(x, c.loc, g, s, GenStmt(ret, el, kl, x.ls, c, st).code)
    ensures var gen := GenStmt(ret, el, kl, x.ls, c, st);
            StmtPost(x.mp, x.code, s, n, s', S.ExecStmt(fuel, x.p, ret, x.env, x.store, g, st), c.loc,
                     s.top.pc + |gen.code|, gen.ls, gen.c.loc, el, kl, fuel)
    decreases fuel, 2, st, 3
  {
    hide Run, Step, Linked, Rel, At, KeepsTemps, Leaving, Reps, RepVars, LabelPos, UniqueLabels, GenExp, S.EvalAs,
      LowersAs, BitsOf, S.WriteVar, GenVar, S.ReadVar;
    var ge := GenExp(x.ls, c, st.e, st.t);
    var store := Store(Width(st.t), GenVar(x.ls, st.x), ge.v);
    var code := GenStmt(ret, el, kl, x.ls, c, st).code;
    AtCat(x.code, s.top.pc, ge.code, [store]);
    n, s' := SimExp(x, fuel, g, c, st.e, st.t, s);
    var r := S.EvalAs(fuel, x.p, x.env, x.store, g, st.e, st.t);
    if r.Stop? {
      return;
    }
    var w := S.WriteVar(x.env, x.store, r.g, st.x, r.v);
    if w.None? {
      return;
    }
    FreshExp(x.ls, c, st.e, st.t, 0);
    var n1, s1 := n, s';
    AtOne(x.code, s1.top.pc, store);
    RelKept(x.env, x.ls, c.loc, ge.c.loc, x.store, g, r.g, s, s1);
    WriteIs(x.env, x.ls, ge.c.loc, x.store, r.g, s1, st.x, r.v);
    var t := WriteCell(s1, GenVar(x.ls, st.x), Rep(r.v)).value;
    StepStore(x.mp, s1, store, Rep(r.v), t);
    s' := Next(t);
    StepLater(x.mp, s, n1, s1, s');
    n := n1 + 1;
    Written(x, c.loc, ge.c.loc, s, s1, t, s', w.value.0, w.value.1);
  }

  lemma Written(x: Ctx, lo: nat, hi: nat, s: State, s1: State, t: State, s': State, store: seq<S.Value>, g: S.Glob)
    requires Keeps(s, s1, lo) && t == s1.(top := s1.top.(mem := t.top.mem), vars := t.vars) && s' == Next(t)
    requires Rel(x.env, x.ls, hi, store, g, t)
    ensures Rel(x.env, x.ls, hi, store, g, s') && Stays(s, s', lo) && s'.top.mem == Reps(store) && Shares(s', g)
  {
    hide Reps, RepVars;
  }

  lemma {:induction false} SimCallStmt(x: Ctx, fuel: nat, ret: Ty, g: S.Glob, el: nat, kl: nat,
                                       c: Ctr, st: Stmt, s: State)
    returns (n: nat, s': State)
    requires st.CallStmt?
    requires Linked(x.p, x.mp) && LowersStmt(ret, st)
    requires Ready(x, c.loc, g, s, GenStmt(ret, el, kl, x.ls, c, st).code)
    ensures var gen := GenStmt(ret, el, kl, x.ls, c, st);
            StmtPost(x.mp, x.code, s, n, s', S.ExecStmt(fuel, x.p, ret, x.env, x.store, g, st), c.loc,
                     s.top.pc + |gen.code|, gen.ls, gen.c.loc, el, kl, fuel)
    decreases fuel, 2, st, 3
  {
    hide Run, Step, Linked, Rel, At, KeepsTemps, Leaving, Reps, RepVars, LabelPos, UniqueLabels, GenArgs,
      S.EvalArgs, S.CallFn, BitsOf;
    var ga := GenArgs(x.ls, c, st.args, st.sig.params);
    var i := if st.sig.ret.Void? then CallVoid(st.sig.name, ga.vs)
             else CallExp(ga.c.loc, Width(st.sig.ret), st.sig.name, ga.vs);
    AtCat(x.code, s.top.pc, ga.code, [i]);
    n, s' := SimArgs(x, fuel, g, c, st.args, st.sig.params, s);
    var ra := S.EvalArgs(fuel, x.p, x.env, x.store, g, st.args, st.sig.params);
    if ra.Stop? {
      return;
    }
    FreshArgs(x.ls, c, st.args, st.sig.params, 0);
    var n1, s1 := n, s';
    AtOne(x.code, s1.top.pc, i);
    var n2 := SimCall(x.p, x.mp, fuel, ra.g, st.sig, ra.v, i, ga.vs, s1);
    var r := S.CallFn(fuel, x.p, st.sig, ra.v, ra.g);
    n := n1 + n2;
    if r.Stop? {
      StopLater(x.mp, s, n1, s1, n2, r.why, fuel);
    } else {
      s' := AfterCall(s1, r.g, i, r.v);
      StepsLater(x.mp, s, n1, s1, n2, s');
      CallKeeps(s, s1, r.g, i, r.v, c.loc);
      NormalHere(x, c.loc, GenStmt(ret, el, kl, x.ls, c, st).c.loc, g, r.g, s, n, s', el, kl, fuel);
    }
  }

  lemma CallKeeps(s: State, s1: State, g: S.Glob, i: Instr, v: Option<S.Value>, lo: nat)
    requires Keeps(s, s1, lo) && (i.CallExp? ==> lo <= i.dst)
    ensures Keeps(s, AfterCall(s1, g, i, v), lo) && Shares(AfterCall(s1, g, i, v), g)
  {
    hide RepVars;
  }

  lemma {:induction false} SimEcho(x: Ctx, fuel: nat, ret: Ty, g: S.Glob, el: nat, kl: nat, c: Ctr, st: Stmt, s: State)
    returns (n: nat, s': State)
    requires st.Echo?
    requires Linked(x.p, x.mp) && LowersStmt(ret, st)
    requires Ready(x, c.loc, g, s, GenStmt(ret, el, kl, x.ls, c, st).code)
    ensures var gen := GenStmt(ret, el, kl, x.ls, c, st);
            StmtPost(x.mp, x.code, s, n, s', S.ExecStmt(fuel, x.p, ret, x.env, x.store, g, st), c.loc,
                     s.top.pc + |gen.code|, gen.ls, gen.c.loc, el, kl, fuel)
    decreases fuel, 2, st, 3
  {
    hide Run, Step, Linked, Rel, At, KeepsTemps, Leaving, Reps, RepVars, LabelPos, UniqueLabels, GenTyped, GenExp,
      S.EvalExp, BitsOf, GenConversion, Lowers;
    var t := TyOf(st.e);
    SameType(x.ls, c, st.e);
    var ge := GenTyped(x.ls, c, st.e);
    var k := if t.Char? then ExpGen([], ge.v, ge.c) else GenConversion(ge.c, t, ge.v, Long);
    var echo := EchoRt(if t.Char? then CharKind else IntegerKind, k.v);
    assert ge.code + [] == ge.code;
    AtCat(x.code, s.top.pc, ge.code + k.code, [echo]);
    AtCat(x.code, s.top.pc, ge.code, k.code);
    n, s' := SimTyped(x, fuel, g, c, st.e, s);
    var r := S.EvalExp(fuel, x.p, x.env, x.store, g, st.e);
    if r.Stop? {
      return;
    }
    FreshTyped(x.ls, c, st.e, 0);
    var n1, s1 := n, s';
    var n2, s2, v := EchoOperand(x, ge.c, t, ge.v, r.v, s1, k);
    StepsLater(x.mp, s, n1, s1, n2, s2);
    KeepsTrans(s, s1, s2, c.loc, c.loc, ge.c.loc);
    AtOne(x.code, s2.top.pc, echo);
    StepEcho(x.mp, s2, echo, v);
    s' := Next(s2.(events := s2.events + [S.EchoOf(v)]));
    StepLater(x.mp, s, n1 + n2, s2, s');
    n := n1 + n2 + 1;
    NormalHere(x, c.loc, k.c.loc, g, r.g.(events := r.g.events + [S.EchoOf(r.v)]), s, n, s', el, kl, fuel);
  }

  /** The echoed value, an integer being widened to a long first. */
  lemma EchoOperand(x: Ctx, c: Ctr, t: Ty, op: Operand, val: S.Value, s: State, k: ExpGen)
    returns (n: nat, s': State, v: S.Value)
    requires val.ty == t && (t.Char? || HasConversion(t, Long)) && Inside(x, s) && Holds(s.top, op, val, c.loc)
    requires k == if t.Char? then ExpGen([], op, c) else GenConversion(c, t, op, Long)
    requires At(x.code, s.top.pc, k.code)
    ensures Steps(x.mp, s, n, s') && Keeps(s, s', c.loc)
    ensures s'.vars == s.vars && s'.events == s.events && s'.answers == s.answers
    ensures s'.top.pc == s.top.pc + |k.code| && v.ty == (if t.Char? then Char else Long)
    ensures BitsOf(s'.top, Width(v.ty), k.v) == Some(Rep(v)) && S.EchoOf(v) == S.EchoOf(val) && c.loc <= k.c.loc
  {
    hide Run, Step, At, BitsOf, GenConversion, ToBits, UniqueLabels;
    if t.Char? {
      n, s', v := 0, s, val;
      Zero(x.mp, s);
    } else {
      n, s' := SimConversion(x, c, t, op, Long, val, s);
      v := S.MkValue(Long, val.n);
      Pow2Mono(Width(t) - 1, 63);
      WrapId(64, val.n);
      FreshConversion(c, t, op, Long, 0);
    }
  }

  // Conditionals

  lemma IfAt(code: Code, pos: nat, c: Ctr, gc: CodeGen, gt: CodeGen, br: Code)
    requires At(code, pos, IfCode(c, gc, gt, br))
    ensures var p1 := pos + |gc.code|;
            var p2 := p1 + 1 + |gt.code|;
            && At(code, pos, gc.code)
            && p1 < |code| && code[p1] == Label(c.lab) && At(code, p1 + 1, gt.code) && At(code, p2, br)
            && p2 + |br| < |code| && code[p2 + |br|] == Label(c.lab + 1)
            && |IfCode(c, gc, gt, br)| == p2 + |br| + 1 - pos
  {
    hide At;
    var k1 := gc.code + [Label(c.lab)];
    var k2 := k1 + gt.code;
    AtCat(code, pos, k2 + br, [Label(c.lab + 1)]);
    AtCat(code, pos, k2, br);
    AtCat(code, pos, k1, gt.code);
    AtCat(code, pos, gc.code, [Label(c.lab)]);
    AtOne(code, pos + |gc.code|, Label(c.lab));
    AtOne(code, pos + |k2 + br|, Label(c.lab + 1));
  }

  /** An arm of a conditional: a block that branches to label `l`, placed at `q`, unless all its paths exit. */
  lemma {:induction false} SimArm(x: Ctx, fuel: nat, ret: Ty, g: S.Glob, el: nat, kl: nat, c: Ctr, b: seq<Stmt>,
                                  s: State, l: nat, q: nat, hi: nat)
    returns (n: nat, s': State)
    requires Linked(x.p, x.mp) && LowersStmts(ret, b)
    requires Ready(x, c.loc, g, s, GenBlock(ret, el, kl, x.ls, c, b).code)
    requires !Exits(b) ==> At(x.code, s.top.pc + |GenBlock(ret, el, kl, x.ls, c, b).code|, [Br(l)])
    requires !Exits(b) ==> q < |x.code| && x.code[q] == Label(l)
    requires GenBlock(ret, el, kl, x.ls, c, b).c.loc <= hi
    ensures StmtPost(x.mp, x.code, s, n, s', S.ExecBlock(fuel, x.p, ret, x.env, x.store, g, b), c.loc, q + 1, x.ls, hi,
                     el, kl, fuel)
    decreases fuel, 2, b, 2
  {
    hide Run, Step, Linked, Rel, At, KeepsTemps, Leaving, Reps, RepVars, LabelPos, UniqueLabels, GenBlock,
      CompilesStmts, NoMixedIfs, S.ExecStmts, Exits;
    var gen := GenBlock(ret, el, kl, x.ls, c, b);
    n, s' := SimBlock(x, fuel, ret, g, el, kl, c, b, s);
    var r := S.ExecBlock(fuel, x.p, ret, x.env, x.store, g, b);
    var end := s.top.pc + |gen.code|;
    if Exits(b) {
      ExitingBlock(fuel, x.p, ret, x.env + [[]], x.store, g, b);
      NoEnd(x, s, n, s', r, c.loc, end, q + 1, x.ls, x.ls, gen.c.loc, hi, el, kl, fuel);
    } else {
      AtOne(x.code, end, Br(l));
      HigherBound(x, s, n, s', r, c.loc, end, gen.c.loc, hi, el, kl, fuel);
      n, s' := ThenBranch(x, s, n, s', r, c.loc, end, x.ls, hi, el, kl, fuel, l, q);
    }
  }

  lemma HigherBound(x: Ctx, s: State, n: nat, s': State, res: S.StmtRes, lo: nat, end: nat, hi: nat, hi': nat,
                    el: nat, kl: nat, fuel: nat)
    requires StmtPost(x.mp, x.code, s, n, s', res, lo, end, x.ls, hi, el, kl, fuel) && hi <= hi'
    ensures StmtPost(x.mp, x.code, s, n, s', res, lo, end, x.ls, hi', el, kl, fuel)
  {
    hide Reached, Leaving, StopPost, Reps, RepVars;
  }

  lemma {:induction false} SimIf(x: Ctx, fuel: nat, ret: Ty, g: S.Glob, el: nat, kl: nat, c: Ctr, st: Stmt, s: State)
    returns (n: nat, s': State)
    requires st.If?
    requires Linked(x.p, x.mp) && LowersStmt(ret, st)
    requires Ready(x, c.loc, g, s, GenStmt(ret, el, kl, x.ls, c, st).code)
    ensures var gen := GenStmt(ret, el, kl, x.ls, c, st);
            StmtPost(x.mp, x.code, s, n, s', S.ExecStmt(fuel, x.p, ret, x.env, x.store, g, st), c.loc,
                     s.top.pc + |gen.code|, gen.ls, gen.c.loc, el, kl, fuel)
    decreases fuel, 2, st, 3
  {
    hide Run, Step, Linked, Rel, At, KeepsTemps, Leaving, Reps, RepVars, LabelPos, UniqueLabels, GenCond, GenBlock,
      GenStmt, S.EvalCond, S.ExecBlock, S.ExecStmt, LowersCond, LowersStmt, CompilesStmts, NoMixedIfs, Exits, StmtPost,
      IfCode, Reached, Shares;
    LowersIf(ret, st);
    IfIs(ret, el, kl, x.ls, c, st);
    S.RunsIf(fuel, x.p, ret, x.env, x.store, g, st);
    var c0 := c.(lab := c.lab + 2);
    var gc := GenCond(x.ls, c0, st.c, c.lab, c.lab + 1);
    var gt := GenBlock(ret, el, kl, x.ls, gc.c, st.thn);
    var br := if Exits(st.thn) then [] else [Br(c.lab + 1)];
    var code := GenStmt(ret, el, kl, x.ls, c, st).code;
    IfAt(x.code, s.top.pc, c, gc, gt, br);
    var p1 := s.top.pc + |gc.code|;
    var p3 := p1 + 1 + |gt.code| + |br|;
    LabelPosIs(x.code, c.lab, p1);
    LabelPosIs(x.code, c.lab + 1, p3);
    ReadyHead(x, c.loc, g, s, code, gc.code);
    n, s' := SimCond(x, fuel, g, c0, st.c, c.lab, c.lab + 1, s);
    var rc := S.EvalCond(fuel, x.p, x.env, x.store, g, st.c);
    if rc.Stop? {
      HaltPost(x, s, n, s', rc.why, c.loc, s.top.pc + |code|, x.ls, GenStmt(ret, el, kl, x.ls, c, st).c.loc, el, kl,
               fuel);
      return;
    }
    FreshCond(x.ls, c0, st.c, c.lab, c.lab + 1, 0);
    FreshBlock(ret, el, kl, x.ls, gc.c, st.thn, 0);
    var n1, s1 := n, s';
    if !rc.v {
      NormalHere(x, c.loc, gt.c.loc, g, rc.g, s, n1, s1, el, kl, fuel);
      return;
    }
    ReadyNext(x, c.loc, gc.c.loc, g, rc.g, s, s1, code, gt.code);
    var n2, s2 := SimArm(x, fuel, ret, rc.g, el, kl, gc.c, st.thn, s1, c.lab + 1, p3, gt.c.loc);
    KeepsStays(s, s1, c.loc);
    PostLater(x, s, n1, s1, n2, s2, S.ExecBlock(fuel, x.p, ret, x.env, x.store, rc.g, st.thn), c.loc, gc.c.loc,
              p3 + 1, x.ls, gt.c.loc, el, kl, fuel, fuel);
    n, s' := n1 + n2, s2;
  }

  /** The layout of a conditional with an else part; `join` is where its normal end is. */
  lemma IfElseAt(code: Code, pos: nat, c: Ctr, gc: CodeGen, gt: CodeGen, ge: CodeGen, both: bool, endl: nat)
    requires both ==> At(code, pos, IfCode(c, gc, gt, []) + ge.code)
    requires !both ==> At(code, pos, IfElseCode(c, gc, gt, ge, [Br(endl)], [Br(endl)], [Label(endl)]))
    ensures var p1 := pos + |gc.code|;
            var p2 := p1 + 1 + |gt.code|;
            var p3 := p2 + (if both then 0 else 1);
            var p4 := p3 + 1 + |ge.code|;
            && At(code, pos, gc.code)
            && p1 < |code| && code[p1] == Label(c.lab) && At(code, p1 + 1, gt.code)
            && p3 < |code| && code[p3] == Label(c.lab + 1) && At(code, p3 + 1, ge.code)
            && (!both ==>
                  && At(code, p2, [Br(endl)]) && At(code, p4, [Br(endl)])
                  && p4 + 1 < |code| && code[p4 + 1] == Label(endl))
    ensures !both ==> |IfElseCode(c, gc, gt, ge, [Br(endl)], [Br(endl)], [Label(endl)])|
                      == |gc.code| + |gt.code| + |ge.code| + 5
    ensures both ==> |IfCode(c, gc, gt, []) + ge.code| == |gc.code| + |gt.code| + |ge.code| + 2
  {
    hide At, IfCode;
    if both {
      AtCat(code, pos, IfCode(c, gc, gt, []), ge.code);
      IfAt(code, pos, c, gc, gt, []);
    } else {
      var k1 := IfCode(c, gc, gt, [Br(endl)]);
      AtCat(code, pos, k1 + ge.code + [Br(endl)], [Label(endl)]);
      AtCat(code, pos, k1 + ge.code, [Br(endl)]);
      AtCat(code, pos, k1, ge.code);
      IfAt(code, pos, c, gc, gt, [Br(endl)]);
      AtOne(code, pos + |k1 + ge.code + [Br(endl)]|, Label(endl));
    }
  }

  lemma {:induction false} SimIfElse(x: Ctx, fuel: nat, ret: Ty, g: S.Glob, el: nat, kl: nat,
                                     c: Ctr, st: Stmt, s: State)
    returns (n: nat, s': State)
    requires st.IfElse?
    requires Linked(x.p, x.mp) && LowersStmt(ret, st)
    requires Ready(x, c.loc, g, s, GenStmt(ret, el, kl, x.ls, c, st).code)
    ensures var gen := GenStmt(ret, el, kl, x.ls, c, st);
            StmtPost(x.mp, x.code, s, n, s', S.ExecStmt(fuel, x.p, ret, x.env, x.store, g, st), c.loc,
                     s.top.pc + |gen.code|, gen.ls, gen.c.loc, el, kl, fuel)
    decreases fuel, 2, st, 3
  {
    hide Run, Step, Linked, Rel, At, KeepsTemps, Leaving, Reps, RepVars, LabelPos, UniqueLabels, GenCond, GenBlock,
      GenStmt, S.EvalCond, S.ExecBlock, S.ExecStmt, LowersCond, LowersStmt, CompilesStmts, NoMixedIfs, Exits, StmtPost,
      IfCode, IfElseCode, Reached, Shares;
    LowersIfElse(ret, st);
    IfElseIs(ret, el, kl, x.ls, c, st);
    S.RunsIfElse(fuel, x.p, ret, x.env, x.store, g, st);
    var c0 := c.(lab := c.lab + 2);
    var both := Exits(st.thn);
    var gc := GenCond(x.ls, c0, st.c, c.lab, c.lab + 1);
    var gt := GenBlock(ret, el, kl, x.ls, gc.c, st.thn);
    var endl := gt.c.lab;
    var ce := if both then gt.c else gt.c.(lab := endl + 1);
    var ge := GenBlock(ret, el, kl, x.ls, ce, st.els);
    var code := GenStmt(ret, el, kl, x.ls, c, st).code;
    IfElseAt(x.code, s.top.pc, c, gc, gt, ge, both, endl);
    var p1 := s.top.pc + |gc.code|;
    var p3 := p1 + 1 + |gt.code| + (if both then 0 else 1);
    var q := p3 + |ge.code| + 2;
    LabelPosIs(x.code, c.lab, p1);
    LabelPosIs(x.code, c.lab + 1, p3);
    ReadyHead(x, c.loc, g, s, code, gc.code);
    n, s' := SimCond(x, fuel, g, c0, st.c, c.lab, c.lab + 1, s);
    var rc := S.EvalCond(fuel, x.p, x.env, x.store, g, st.c);
    if rc.Stop? {
      HaltPost(x, s, n, s', rc.why, c.loc, s.top.pc + |code|, x.ls, GenStmt(ret, el, kl, x.ls, c, st).c.loc, el, kl,
               fuel);
      return;
    }
    FreshCond(x.ls, c0, st.c, c.lab, c.lab + 1, 0);
    FreshBlock(ret, el, kl, x.ls, gc.c, st.thn, 0);
    FreshBlock(ret, el, kl, x.ls, ce, st.els, 0);
    var n1, s1 := n, s';
    var arm, ca, ga := if rc.v then st.thn else st.els, if rc.v then gc.c else ce, if rc.v then gt else ge;
    ReadyNext(x, c.loc, ca.loc, g, rc.g, s, s1, code, ga.code);
    var n2, s2 := SimArm(x, fuel, ret, rc.g, el, kl, ca, arm, s1, endl, q, ge.c.loc);
    var r := S.ExecBlock(fuel, x.p, ret, x.env, x.store, rc.g, arm);
    KeepsStays(s, s1, c.loc);
    PostLater(x, s, n1, s1, n2, s2, r, c.loc, ca.loc, q + 1, x.ls, ge.c.loc, el, kl, fuel, fuel);
    n, s' := n1 + n2, s2;
    if both {
      ExitingBlock(fuel, x.p, ret, x.env + [[]], x.store, rc.g, arm);
      BlockOut(fuel, x.p, ret, x.env, x.store, rc.g, arm);
      NoEnd(x, s, n, s', r, c.loc, q + 1, s.top.pc + |code|, x.ls, x.ls, ge.c.loc, ge.c.loc, el, kl, fuel);
    }
  }

  lemma LowersIf(ret: Ty, st: Stmt)
    requires st.If? && LowersStmt(ret, st)
    ensures LowersCond(st.c) && LowersStmts(ret, st.thn)
  {
    hide LowersCond, CompilesStmts, NoMixedIfs;
  }

  lemma LowersIfElse(ret: Ty, st: Stmt)
    requires st.IfElse? && LowersStmt(ret, st)
    ensures LowersCond(st.c) && LowersStmts(ret, st.thn) && LowersStmts(ret, st.els) && Exits(st.thn) == Exits(st.els)
  {
    hide LowersCond, CompilesStmts, NoMixedIfs, Exits;
  }

  lemma LowersWhile(ret: Ty, w: Stmt)
    requires w.While? && LowersStmt(ret, w)
    ensures LowersCond(w.c) && LowersStmts(ret, w.body)
  {
    hide LowersCond, CompilesStmts, NoMixedIfs;
  }

  lemma BlockEnv(fuel: nat, p: Program, ret: Ty, env: S.Env, store: seq<S.Value>, g: S.Glob, b: seq<Stmt>)
    ensures var r := S.ExecBlock(fuel, p, ret, env, store, g, b); r.Done? ==> r.env == env
  {
    hide S.ExecStmts;
  }

  lemma BlockOut(fuel: nat, p: Program, ret: Ty, env: S.Env, store: seq<S.Value>, g: S.Glob, b: seq<Stmt>)
    ensures var r := S.ExecStmts(fuel, p, ret, env + [[]], store, g, b);
            var t := S.ExecBlock(fuel, p, ret, env, store, g, b);
            r.Halt? == t.Halt? && (r.Done? ==> t.out == r.out)
  {
    hide S.ExecStmts;
  }

  // Loops

  lemma WhileAt(code: Code, pos: nat, c: Ctr, g1: CodeGen, gb: CodeGen, g2: CodeGen, br: Code)
    requires At(code, pos, WhileCode(c, g1, gb, g2, br))
    ensures var p1 := pos + |g1.code|;
            var p2 := p1 + 1 + |gb.code|;
            var p3 := p2 + |br|;
            var p4 := p3 + 1 + |g2.code|;
            && At(code, pos, g1.code)
            && p1 < |code| && code[p1] == Label(c.lab + 1) && At(code, p1 + 1, gb.code) && At(code, p2, br)
            && p3 < |code| && code[p3] == Label(c.lab + 2) && At(code, p3 + 1, g2.code)
            && p4 < |code| && code[p4] == Label(c.lab)
            && |WhileCode(c, g1, gb, g2, br)| == p4 + 1 - pos
  {
    hide At;
    var first := g1.code + [Label(c.lab + 1)] + gb.code;
    var second := first + br + [Label(c.lab + 2)] + g2.code;
    AtCat(code, pos, second, [Label(c.lab)]);
    AtOne(code, pos + |second|, Label(c.lab));
    AtLabel(code, pos, first + br, c.lab + 2, g2.code);
    AtCat(code, pos, first, br);
    AtLabel(code, pos, g1.code, c.lab + 1, gb.code);
  }

  lemma AtLabel(code: Code, pos: nat, before: Code, l: nat, after: Code)
    requires At(code, pos, before + [Label(l)] + after)
    ensures At(code, pos, before) && At(code, pos + |before| + 1, after)
    ensures pos + |before| < |code| && code[pos + |before|] == Label(l)
  {
    hide At;
    AtCat(code, pos, before + [Label(l)], after);
    AtCat(code, pos, before, [Label(l)]);
    AtOne(code, pos + |before|, Label(l));
  }

  lemma {:induction false} SimWhile(x: Ctx, fuel: nat, ret: Ty, g: S.Glob, el: nat, kl: nat, c: Ctr, st: Stmt, s: State)
    returns (n: nat, s': State)
    requires st.While?
    requires Linked(x.p, x.mp) && LowersStmt(ret, st)
    requires Ready(x, c.loc, g, s, GenStmt(ret, el, kl, x.ls, c, st).code)
    ensures var gen := GenStmt(ret, el, kl, x.ls, c, st);
            StmtPost(x.mp, x.code, s, n, s', S.ExecStmt(fuel, x.p, ret, x.env, x.store, g, st), c.loc,
                     s.top.pc + |gen.code|, gen.ls, gen.c.loc, el, kl, fuel)
    decreases fuel, 2, st, 3
  {
    hide Run, Step, Linked, Rel, S.ExecStmt, StmtPost, GenStmt;
    n, s' := SimLoop(x, fuel, ret, g, el, kl, c, st, s.top.pc, false, s);
  }

  /** Where the two copies of the loop condition start, the first with the counters it was compiled with. */
  function LoopStart(x: Ctx, ret: Ty, c: Ctr, w: Stmt, pos: nat, again: bool): (nat, Ctr)
    requires w.While?
  {
    var g1 := GenCond(x.ls, c.(lab := c.lab + 3), w.c, c.lab + 1, c.lab);
    var gb := GenBlock(ret, c.lab, c.lab + 2, x.ls, g1.c, w.body);
    if again then (pos + |g1.code| + 1 + |gb.code| + (if Exits(w.body) then 0 else 1) + 1, gb.c)
    else (pos, c.(lab := c.lab + 3))
  }

  /** The loop from its entry, and again from each check; the condition was compiled twice. */
  lemma {:induction false} SimLoop(x: Ctx, fuel: nat, ret: Ty, g: S.Glob, el: nat, kl: nat, c: Ctr, w: Stmt,
                                   pos: nat, again: bool, s: State)
    returns (n: nat, s': State)
    requires w.While? && Linked(x.p, x.mp) && LowersStmt(ret, w) && Inside(x, s)
    requires At(x.code, pos, GenStmt(ret, el, kl, x.ls, c, w).code)
    requires s.top.pc == LoopStart(x, ret, c, w, pos, again).0
    requires Rel(x.env, x.ls, c.loc, x.store, g, s)
    ensures var gen := GenStmt(ret, el, kl, x.ls, c, w);
            StmtPost(x.mp, x.code, s, n, s', S.ExecStmt(fuel, x.p, ret, x.env, x.store, g, w), c.loc,
                     pos + |gen.code|, gen.ls, gen.c.loc, el, kl, fuel)
    decreases fuel, 2, w, 2
  {
    hide Run, Step, Linked, Rel, At, KeepsTemps, Leaving, Reps, RepVars, LabelPos, UniqueLabels, GenCond, GenBlock,
      S.EvalCond, S.ExecStmts, LowersCond, CompilesStmts, NoMixedIfs, Exits, StmtPost, S.ExecBlock, WhileCode,
      Reached, Shares;
    n, s' := 0, s;
    var end := pos + |GenStmt(ret, el, kl, x.ls, c, w).code|;
    var hi := GenStmt(ret, el, kl, x.ls, c, w).c.loc;
    if fuel == 0 {
      Zero(x.mp, s);
      HaltPost(x, s, 0, s, S.Timeout, c.loc, end, x.ls, hi, el, kl, fuel);
      return;
    }
    var endl, bl, chk := c.lab, c.lab + 1, c.lab + 2;
    var c1 := c.(lab := c.lab + 3);
    var g1 := GenCond(x.ls, c1, w.c, bl, endl);
    var gb := GenBlock(ret, endl, chk, x.ls, g1.c, w.body);
    var g2 := GenCond(x.ls, gb.c, w.c, bl, endl);
    var br := if Exits(w.body) then [] else [Br(chk)];
    WhileAt(x.code, pos, c, g1, gb, g2, br);
    var p1 := pos + |g1.code|;
    var p3 := p1 + 1 + |gb.code| + |br|;
    var p4 := p3 + 1 + |g2.code|;
    LabelPosIs(x.code, bl, p1);
    LabelPosIs(x.code, chk, p3);
    LabelPosIs(x.code, endl, p4);
    FreshCond(x.ls, c1, w.c, bl, endl, 0);
    FreshBlock(ret, endl, chk, x.ls, g1.c, w.body, 0);
    FreshCond(x.ls, gb.c, w.c, bl, endl, 0);
    var cc, gc := if again then gb.c else c1, if again then g2 else g1;
    SelfKept(x, c.loc, cc.loc, g, s);
    n, s' := SimCond(x, fuel, g, cc, w.c, bl, endl, s);
    var rc := S.EvalCond(fuel, x.p, x.env, x.store, g, w.c);
    if rc.Stop? {
      HaltPost(x, s, n, s', rc.why, c.loc, end, x.ls, hi, el, kl, fuel);
      return;
    }
    var n1, s1 := n, s';
    KeepsLower(s, s1, cc.loc, c.loc);
    if !rc.v {
      NormalHere(x, c.loc, g2.c.loc, g, rc.g, s, n1, s1, el, kl, fuel);
      return;
    }
    Moved(x.mp, s, n1, s1);
    n, s' := SimIteration(x, fuel, ret, g, rc.g, el, kl, c, w, pos, s, n1, s1);
  }

  /** The body of the loop, once its condition held, and what follows it. */
  lemma {:induction false} SimIteration(x: Ctx, fuel: nat, ret: Ty, g: S.Glob, g': S.Glob, el: nat, kl: nat, c: Ctr,
                                        w: Stmt, pos: nat, s: State, n1: nat, s1: State)
    returns (n: nat, s': State)
    requires w.While? && Linked(x.p, x.mp) && LowersStmt(ret, w) && Inside(x, s) && fuel > 0
    requires At(x.code, pos, GenStmt(ret, el, kl, x.ls, c, w).code)
    requires Rel(x.env, x.ls, c.loc, x.store, g, s)
    requires S.EvalCond(fuel, x.p, x.env, x.store, g, w.c) == S.Ok(true, g')
    requires Steps(x.mp, s, n1, s1) && Keeps(s, s1, c.loc) && Shares(s1, g') && n1 > 0
    requires s1.top.pc == pos + |GenCond(x.ls, c.(lab := c.lab + 3), w.c, c.lab + 1, c.lab).code| + 1
    ensures var gen := GenStmt(ret, el, kl, x.ls, c, w);
            StmtPost(x.mp, x.code, s, n, s', S.ExecStmt(fuel, x.p, ret, x.env, x.store, g, w), c.loc,
                     pos + |gen.code|, gen.ls, gen.c.loc, el, kl, fuel)
    decreases fuel, 2, w, 1
  {
    hide Run, Step, Linked, Rel, At, KeepsTemps, Leaving, Reps, RepVars, LabelPos, UniqueLabels, GenCond, GenBlock,
      GenStmt, S.EvalCond, S.ExecBlock, S.ExecStmt, LowersCond, LowersStmt, CompilesStmts, NoMixedIfs, Exits, WhileCode,
      Reached, Shares, StmtPost;
    LowersWhile(ret, w);
    WhileIs(ret, el, kl, x.ls, c, w);
    S.RunsWhile(fuel, x.p, ret, x.env, x.store, g, w);
    var endl, chk := c.lab, c.lab + 2;
    var g1 := GenCond(x.ls, c.(lab := c.lab + 3), w.c, c.lab + 1, endl);
    var gb := GenBlock(ret, endl, chk, x.ls, g1.c, w.body);
    var g2 := GenCond(x.ls, gb.c, w.c, c.lab + 1, endl);
    var br := if Exits(w.body) then [] else [Br(chk)];
    WhileAt(x.code, pos, c, g1, gb, g2, br);
    var end := pos + |g1.code| + 1 + |gb.code|;
    var p3 := end + |br|;
    var p4 := p3 + 1 + |g2.code|;
    LabelPosIs(x.code, chk, p3);
    LabelPosIs(x.code, endl, p4);
    FreshCond(x.ls, c.(lab := c.lab + 3), w.c, c.lab + 1, endl, 0);
    FreshBlock(ret, endl, chk, x.ls, g1.c, w.body, 0);
    FreshCond(x.ls, gb.c, w.c, c.lab + 1, endl, 0);
    RelKept(x.env, x.ls, c.loc, g1.c.loc, x.store, g, g', s, s1);
    var n2, s2 := SimBlock(x, fuel, ret, g', endl, chk, g1.c, w.body, s1);
    var b := S.ExecBlock(fuel, x.p, ret, x.env, x.store, g', w.body);
    BlockEnv(fuel, x.p, ret, x.env, x.store, g', w.body);
    KeepsStays(s, s1, c.loc);
    PostLater(x, s, n1, s1, n2, s2, b, c.loc, g1.c.loc, end, x.ls, gb.c.loc, endl, chk, fuel, fuel);
    n, s' := n1 + n2, s2;
    if b.Halt? || b.out.Returned? {
      LoopLabels(x, s, n, s', b, c.loc, end, p4 + 1, gb.c.loc, g2.c.loc, endl, chk, el, kl, fuel);
    } else if b.out.Broke? {
      LoopBroken(x, s, n, s', b, g, c.loc, end, g2.c.loc, gb.c.loc, endl, chk, el, kl, fuel);
    } else {
      var n3, s3 := ToCheck(x, fuel, ret, s, n, s2, b, g', c.loc, end, gb.c.loc, endl, chk, w.body, p3, n1);
      RelOuter(x.env, x.ls, c.loc, c.loc, x.store, b.store, g, b.g, s, s3);
      var x1 := x.(store := b.store);
      var n4, s4 := SimLoop(x1, fuel - 1, ret, b.g, el, kl, c, w, pos, true, s3);
      PostLater(x, s, n3, s3, n4, s4, S.ExecStmt(fuel - 1, x.p, ret, x.env, b.store, b.g, w), c.loc, c.loc,
                p4 + 1, x.ls, g2.c.loc, el, kl, fuel, fuel - 1);
      n, s' := n3 + n4, s4;
    }
  }

  lemma SelfKept(x: Ctx, n: nat, n': nat, g: S.Glob, s: State)
    requires Rel(x.env, x.ls, n, x.store, g, s) && n <= n'
    ensures Rel(x.env, x.ls, n', x.store, g, s)
  {
    hide Reps, RepVars;
  }

  lemma KeepsLower(s: State, s': State, n: nat, n': nat)
    requires Keeps(s, s', n) && n' <= n
    ensures Keeps(s, s', n')
  {
  }

  lemma Moved(mp: MProgram, s: State, n: nat, s': State)
    requires Steps(mp, s, n, s') && s.top.pc != s'.top.pc
    ensures n > 0
  {
  }

  /** What a loop returns does not depend on the labels of an enclosing loop. */
  lemma LoopLabels(x: Ctx, s: State, n: nat, s': State, b: S.StmtRes, lo: nat, end: nat, end': nat, hi: nat, hi': nat,
                   endl: nat, chk: nat, el: nat, kl: nat, fuel: nat)
    requires StmtPost(x.mp, x.code, s, n, s', b, lo, end, x.ls, hi, endl, chk, fuel)
    requires b.Halt? || b.out.Returned?
    ensures StmtPost(x.mp, x.code, s, n, s', b, lo, end', x.ls, hi', el, kl, fuel)
  {
    hide Reached, Leaving, Rel, StopPost;
  }

  /** A break ends the loop normally, at its end label. */
  lemma LoopBroken(x: Ctx, s: State, n: nat, s': State, b: S.StmtRes, g: S.Glob, lo: nat, end: nat, hi: nat, hib: nat,
                   endl: nat, chk: nat, el: nat, kl: nat, fuel: nat)
    requires StmtPost(x.mp, x.code, s, n, s', b, lo, end, x.ls, hib, endl, chk, fuel)
    requires b.Done? && b.out.Broke? && Placed(x.code, endl) && b.env == x.env
    requires Rel(x.env, x.ls, lo, x.store, g, s) && |x.store| <= |b.store| && lo <= hi
    ensures StmtPost(x.mp, x.code, s, n, s', b.(out := S.Normal), lo, LabelPos(x.code, endl) + 1, x.ls, hi, el, kl,
                     fuel)
  {
    hide Run, Leaving, Rel, StopPost, LabelPos;
    RelOuter(x.env, x.ls, lo, hi, x.store, b.store, g, b.g, s, s');
  }

  /** The body done, the machine gets to the check label. */
  lemma ToCheck(x: Ctx, fuel: nat, ret: Ty, s: State, n: nat, s2: State, b: S.StmtRes, g: S.Glob, lo: nat, end: nat,
                hi: nat, endl: nat, chk: nat, body: seq<Stmt>, p3: nat, n1: nat)
    returns (m: nat, s3: State)
    requires Inside(x, s) && StmtPost(x.mp, x.code, s, n, s2, b, lo, end, x.ls, hi, endl, chk, fuel)
    requires b == S.ExecBlock(fuel, x.p, ret, x.env, x.store, g, body)
    requires b.Done? && (b.out.Normal? || b.out.Continued?) && 0 < n1 <= n
    requires p3 < |x.code| && x.code[p3] == Label(chk) && LabelPos(x.code, chk) == p3
    requires !Exits(body) ==> At(x.code, end, [Br(chk)])
    ensures Steps(x.mp, s, m, s3) && Stays(s, s3, lo) && s3.top.mem == Reps(b.store) && Shares(s3, b.g)
    ensures s3.top.pc == p3 + 1 && m > 0 && Inside(x, s3)
  {
    hide Run, Step, Leaving, Rel, StopPost, LabelPos, KeepsTemps, Reps, RepVars, S.ExecStmts, At, Exits, UniqueLabels;
    m, s3 := n, s2;
    if b.out.Normal? {
      if Exits(body) {
        ExitingBlock(fuel, x.p, ret, x.env + [[]], x.store, g, body);
      } else {
        AtOne(x.code, end, Br(chk));
        StepBr(x.mp, s2, chk, p3);
        s3 := GoTo(s2, p3, chk);
        StepLater(x.mp, s, n, s2, s3);
        m := n + 1;
      }
    }
  }
}
