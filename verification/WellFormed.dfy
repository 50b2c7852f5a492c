/** When the emitted code is well formed: a check of the code, and the same check made on the syntax tree. */
module WellFormed {
  import opened Ast
  import opened Machine
  import opened Codegen
  import opened Shape
  import opened Lowerable

  predicate ArgsOk(args: seq<CallArg>) {
    args == [] || (args[0].w > 0 && ArgsOk(args[1..]))
  }

  /** No failed assertion of the generator, and no value of a type without values. */
  predicate InstrOk(i: Instr) {
    match i
    case Alloca(_, w) => w > 0
    case Load(_, w, _) => w > 0
    case Store(w, _, _) => w > 0
    case Arith(_, _, w, _, _) => w > 0
    case Cmp(_, _, w, _, _) => w > 0
    case Sext(_, w, _, to) => 0 < w < to
    case Trunc(_, w, _, to) => 0 < to < w
    case Phi(_, w, _, _, _, _) => w > 0
    case CallExp(_, w, _, args) => w > 0 && ArgsOk(args)
    case CallVoid(_, args) => ArgsOk(args)
    case Ret(w, _) => w > 0
    case Unreachable => false
    case _ => true
  }

  predicate InstrsOk(code: Code) {
    code == [] || (InstrOk(code[0]) && InstrsOk(code[1..]))
  }

  predicate BranchesTo(i: Instr, l: nat) {
    match i
    case Br(t) => t == l
    case CondBr(_, t, e) => t == l || e == l
    case _ => false
  }

  predicate Targets(code: Code, l: nat) {
    code != [] && (BranchesTo(code[0], l) || Targets(code[1..], l))
  }

  ghost predicate TargetsPlaced(code: Code) {
    forall l :: Targets(code, l) ==> Count(code, l) > 0
  }

  datatype Flow = Open | Closed | Bad

  /** Follows the blocks: a label may not be reached with a block still open. */
  function After(i: Instr, st: Flow): Flow {
    if st.Bad? then Bad
    else if i.Label? then if st.Open? then Bad else Open
    else if i.Br? || i.CondBr? || i.Ret? || i.RetVoid? then Closed
    else Open
  }

  function FlowOf(code: Code, st: Flow): Flow {
    if code == [] then st else FlowOf(code[1..], After(code[0], st))
  }

  /** Every block ends in a terminator. */
  predicate Terminated(code: Code) {
    FlowOf(code, Open) == Closed
  }

  /** What an assembler asks of the body of a function, but for two things: that a phi names the blocks it is
      entered from, and that a temporary is written on every path to its use. That no run breaks these follows from
      `Preservation.NeverStuck`. */
  ghost predicate WellFormedCode(code: Code) {
    InstrsOk(code) && UniqueLabels(code) && IncreasingTemps(code) && TargetsPlaced(code) && Terminated(code)
  }

  // The checks on code that is put together from pieces

  lemma {:induction false} OkCat(a: Code, b: Code)
    ensures InstrsOk(a + b) <==> InstrsOk(a) && InstrsOk(b)
    decreases a
  {
    if a == [] {
      assert a + b == b;
    } else {
      OkCat(a[1..], b);
      assert (a + b)[1..] == a[1..] + b;
    }
  }

  lemma {:induction false} TargetsCat(a: Code, b: Code, l: nat)
    ensures Targets(a + b, l) <==> Targets(a, l) || Targets(b, l)
    decreases a
  {
    if a == [] {
      assert a + b == b;
    } else {
      TargetsCat(a[1..], b, l);
      assert (a + b)[1..] == a[1..] + b;
    }
  }

  lemma {:induction false} FlowCat(a: Code, b: Code, st: Flow)
    ensures FlowOf(a + b, st) == FlowOf(b, FlowOf(a, st))
    decreases a
  {
    if a == [] {
      assert a + b == b;
    } else {
      FlowCat(a[1..], b, After(a[0], st));
      assert (a + b)[1..] == a[1..] + b;
    }
  }

  lemma Joined(a: Code, b: Code, l: nat)
    ensures InstrsOk(a + b) <==> InstrsOk(a) && InstrsOk(b)
    ensures Targets(a + b, l) <==> Targets(a, l) || Targets(b, l)
    ensures Count(a + b, l) == Count(a, l) + Count(b, l)
    ensures FlowOf(a + b, Open) == FlowOf(b, FlowOf(a, Open))
    ensures FlowOf(a + b, Closed) == FlowOf(b, FlowOf(a, Closed))
    ensures FlowOf(b, Bad) == Bad
  {
    OkCat(a, b);
    TargetsCat(a, b, l);
    CountCat(a, b, l);
    FlowCat(a, b, Open);
    FlowCat(a, b, Closed);
    StaysBad(b);
  }

  lemma {:induction false} StaysBad(code: Code)
    ensures FlowOf(code, Bad) == Bad
  {
    if code != [] {
      StaysBad(code[1..]);
    }
  }

  lemma Alone(i: Instr, l: nat)
    ensures InstrsOk([i]) <==> InstrOk(i)
    ensures Targets([i], l) <==> BranchesTo(i, l)
    ensures Count([i], l) == IsLabel(i, l)
    ensures FlowOf([i], Open) == After(i, Open)
    ensures FlowOf([i], Closed) == After(i, Closed)
  {
    assert [i][1..] == [];
  }

  /** Code of an expression: no block is left open or closed by it. */
  predicate Inline(code: Code, ok: bool, l: nat) {
    && InstrsOk(code) == ok
    && (Targets(code, l) ==> Count(code, l) > 0)
    && FlowOf(code, Open) == Open && !FlowOf(code, Closed).Bad?
  }

  /** Code of a condition: it ends in a branch to one of its two labels. */
  predicate Branching(code: Code, ok: bool, l: nat, tl: nat, fl: nat) {
    && InstrsOk(code) == ok
    && (Targets(code, l) ==> Count(code, l) > 0 || l == tl || l == fl)
    && FlowOf(code, Open) == Closed && FlowOf(code, Closed) == Closed
  }

  lemma Nothing(l: nat)
    ensures Inline([], true, l)
  {
  }

  lemma InlineCat(a: Code, b: Code, oka: bool, okb: bool, l: nat)
    requires Inline(a, oka, l) && Inline(b, okb, l)
    ensures Inline(a + b, oka && okb, l)
  {
    hide InstrsOk, Targets, Count, FlowOf;
    Joined(a, b, l);
  }

  /** An instruction at the end that is neither a label nor a terminator. */
  lemma InlineThen(a: Code, i: Instr, oka: bool, l: nat)
    requires Inline(a, oka, l) && !i.Label? && After(i, Open).Open?
    ensures Inline(a + [i], oka && InstrOk(i), l)
    ensures FlowOf(a + [i], Closed) == Open
  {
    hide InstrsOk, Targets, Count, FlowOf;
    Joined(a, [i], l);
    Alone(i, l);
  }

  // Expressions and conditions

  lemma {:induction false} ConversionCode(c: Ctr, from: Ty, v: Operand, to: Ty, l: nat)
    ensures Inline(GenConversion(c, from, v, to).code, HasConversion(from, to), l)
    decreases from.Char?
  {
    hide Inline;
    var g := GenConversion(c, from, v, to);
    Nothing(l);
    if from.Char? && from != to && !to.Void? {
      ConversionCode(c, Byte, v, to, l);
    } else if g.code != [] {
      assert g.code == [] + [g.code[0]];
      InlineThen([], g.code[0], true, l);
    }
  }

  lemma {:induction false} ExpCode(ls: seq<Local>, c: Ctr, e: Exp, t: Ty, l: nat)
    ensures Inline(GenExp(ls, c, e, t).code, LowersAs(e, t), l)
    decreases e, 3
  {
    hide Inline, GenTyped, GenConversion, Lowers;
    var b := GenTyped(ls, c, e);
    TypedCode(ls, c, e, l);
    ConversionCode(b.c, TyOf(e), b.v, t, l);
    InlineCat(b.code, GenConversion(b.c, TyOf(e), b.v, t).code, Lowers(e), HasConversion(TyOf(e), t), l);
  }

  lemma {:induction false} TypedCode(ls: seq<Local>, c: Ctr, e: Exp, l: nat)
    ensures Inline(GenTyped(ls, c, e).code, Lowers(e), l)
    decreases e, 2
  {
    hide Inline, GenExp, GenCond, GenArgs;
    match e
    case IntLit(_, _) => Nothing(l);
    case CharLit(_) => Nothing(l);
    case Var(x, t, _) =>
      var i := Load(c.loc, Width(t), GenVar(ls, x));
      Nothing(l);
      InlineThen([], i, true, l);
      assert [] + [i] == [i];
    case Unary(op, a, _) =>
      var g := GenExp(ls, c, a, TyOf(a));
      ExpCode(ls, c, a, TyOf(a), l);
      InlineThen(g.code, Arith(g.c.loc + 1, Sub, Width(TyOf(a)), Lit(0), g.v), Lowers(a), l);
      InlineThen(g.code, Unreachable, Lowers(a), l);
    case Binary(op, a, b, t) =>
      var ga := GenExp(ls, c, a, t);
      var gb := GenExp(ls, ga.c, b, t);
      ExpCode(ls, c, a, t, l);
      ExpCode(ls, ga.c, b, t, l);
      InlineCat(ga.code, gb.code, LowersAs(a, t), LowersAs(b, t), l);
      InlineThen(ga.code + gb.code, Arith(gb.c.loc, op, Width(t), ga.v, gb.v), LowersAs(a, t) && LowersAs(b, t), l);
      InlineThen(ga.code + gb.code, Unreachable, LowersAs(a, t) && LowersAs(b, t), l);
    case Cast(a, _, t) => ExpCode(ls, c, a, t, l);
    case Call(sig, args) => CallsCode(ls, c, sig, args, l);
    case Conditional(_, _, _, _) => ChoiceCode(ls, c, e, l);
  }

  lemma {:induction false} ChoiceCode(ls: seq<Local>, c: Ctr, e: Exp, l: nat)
    requires e.Conditional?
    ensures Inline(GenTyped(ls, c, e).code, Lowers(e), l)
    decreases e, 1
  {
    hide InstrsOk, Targets, Count, FlowOf, GenExp, GenCond, ArmCode, LowersAs, LowersCond;
    var t, el := e.ety, c.lab + 2;
    var c0 := c.(lab := c.lab + 3);
    var gc := GenCond(ls, c0, e.cond, c.lab, c.lab + 1);
    var ga := GenExp(ls, gc.c, e.thn, t);
    var gb := GenExp(ls, ga.c.(lab := ga.c.lab + 1), e.els, t);
    CondCode(ls, c0, e.cond, c.lab, c.lab + 1, l);
    ExpCode(ls, gc.c, e.thn, t, l);
    ExpCode(ls, ga.c.(lab := ga.c.lab + 1), e.els, t, l);
    var first := ArmCode(gc.code, c.lab, ga, el);
    ArmFlow(gc.code, c.lab, ga, el, LowersAs(e.thn, t), l);
    ArmFlow(first, c.lab + 1, gb, el, LowersAs(e.els, t), l);
    var phi := Phi(gb.c.loc, Width(t), ga.c.lab, ga.v, gb.c.lab, gb.v);
    Joined([Label(el)], [phi], l);
    assert [Label(el)] + [phi] == [Label(el), phi];
    Alone(Label(el), l);
    Alone(phi, l);
    Joined(ArmCode(first, c.lab + 1, gb, el), [Label(el), phi], l);
  }

  lemma ArmFlow(before: Code, tl: nat, g: ExpGen, el: nat, ok: bool, l: nat)
    requires Inline(g.code, ok, l) && FlowOf(before, Open) == Closed && FlowOf(before, Closed) == Closed
    ensures var code := ArmCode(before, tl, g, el);
            && InstrsOk(code) == (InstrsOk(before) && ok)
            && (Targets(code, l) ==> Targets(before, l) || Count(g.code, l) > 0 || l == g.c.lab || l == el)
            && (l == g.c.lab || l == tl || Count(g.code, l) > 0 ==> Count(code, l) > 0)
            && Count(code, l) >= Count(before, l)
            && FlowOf(code, Open) == Closed && FlowOf(code, Closed) == Closed
  {
    hide InstrsOk, Targets, Count, FlowOf;
    var te := g.c.lab;
    var k1 := before + [Label(tl)];
    var k2 := k1 + g.code;
    Joined(before, [Label(tl)], l);
    Alone(Label(tl), l);
    Joined(k1, g.code, l);
    assert [Br(te), Label(te), Br(el)] == [Br(te)] + [Label(te)] + [Br(el)];
    Joined([Br(te)], [Label(te)], l);
    Joined([Br(te)] + [Label(te)], [Br(el)], l);
    Alone(Br(te), l);
    Alone(Label(te), l);
    Alone(Br(el), l);
    Joined(k2, [Br(te), Label(te), Br(el)], l);
  }

  lemma {:induction false} CallsCode(ls: seq<Local>, c: Ctr, sig: Sig, args: seq<Exp>, l: nat)
    ensures Inline(GenCall(ls, c, sig, args).code, LowersArgs(args, sig.params) && !sig.ret.Err?, l)
    ensures FlowOf(GenCall(ls, c, sig, args).code, Closed) == Open
    decreases args, 1
  {
    hide Inline, GenArgs, LowersArgs;
    var g := GenArgs(ls, c, args, sig.params);
    var ok := LowersArgs(args, sig.params);
    ArgsCode(ls, c, args, sig.params, l);
    var i := if sig.ret.Void? then CallVoid(sig.name, g.vs) else CallExp(g.c.loc, Width(sig.ret), sig.name, g.vs);
    InlineThen(g.code, i, InstrsOk(g.code), l);
  }

  lemma {:induction false} ArgsCode(ls: seq<Local>, c: Ctr, es: seq<Exp>, ts: seq<Ty>, l: nat)
    ensures var g := GenArgs(ls, c, es, ts);
            Inline(g.code, InstrsOk(g.code), l) && (InstrsOk(g.code) && ArgsOk(g.vs)) == LowersArgs(es, ts)
    decreases es, 0
  {
    hide Inline, GenExp, LowersAs, InstrsOk, FlowOf, Targets;
    if es == [] || ts == [] {
      Nothing(l);
      InlineOk([], true, l);
    } else {
      var g := GenExp(ls, c, es[0], ts[0]);
      var r := GenArgs(ls, g.c, es[1..], ts[1..]);
      ExpCode(ls, c, es[0], ts[0], l);
      InlineOk(g.code, LowersAs(es[0], ts[0]), l);
      ArgsCode(ls, g.c, es[1..], ts[1..], l);
      InlineCat(g.code, r.code, LowersAs(es[0], ts[0]), InstrsOk(r.code), l);
      OkCat(g.code, r.code);
    }
  }

  lemma InlineOk(code: Code, ok: bool, l: nat)
    requires Inline(code, ok, l)
    ensures InstrsOk(code) == ok
  {
  }

  lemma {:induction false} CondCode(ls: seq<Local>, c: Ctr, cond: Cond, tl: nat, fl: nat, l: nat)
    ensures Branching(GenCond(ls, c, cond, tl, fl).code, LowersCond(cond), l, tl, fl)
    decreases cond, 2
  {
    hide InstrsOk, Targets, Count, FlowOf, GenPlainCond, LowersCond;
    if cond.negate {
      PlainCondCode(ls, c, cond, fl, tl, l);
    } else {
      PlainCondCode(ls, c, cond, tl, fl, l);
    }
  }

  lemma {:induction false} PlainCondCode(ls: seq<Local>, c: Ctr, cond: Cond, tl: nat, fl: nat, l: nat)
    ensures Branching(GenPlainCond(ls, c, cond, tl, fl).code, LowersCond(cond), l, tl, fl)
    decreases cond, 1
  {
    hide InstrsOk, Targets, Count, FlowOf, GenCond, GenExp, Lowers, LowersAs;
    match cond
    case BinCond(_, op, a, b) =>
      var nl := c.lab;
      var c0 := c.(lab := nl + 1);
      var lt, lf := if op.And? then nl else tl, if op.And? then fl else nl;
      var ga := GenCond(ls, c0, a, lt, lf);
      var gb := GenCond(ls, ga.c, b, tl, fl);
      CondCode(ls, c0, a, lt, lf, l);
      CondCode(ls, ga.c, b, tl, fl, l);
      Joined(ga.code, [Label(nl)], l);
      Alone(Label(nl), l);
      Joined(ga.code + [Label(nl)], gb.code, l);
    case Compar(_, op, a, b) =>
      var t := TyOf(a);
      var ga := GenExp(ls, c, a, t);
      var gb := GenExp(ls, ga.c, b, t);
      ExpCode(ls, c, a, t, l);
      ExpCode(ls, ga.c, b, t, l);
      LowersSame(a);
      ComparFlow(ga, gb, op, t, tl, fl, LowersAs(a, t), LowersAs(b, t), l);
  }

  lemma LowersSame(e: Exp)
    ensures LowersAs(e, TyOf(e)) == Lowers(e)
  {
  }

  lemma ComparFlow(ga: ExpGen, gb: ExpGen, op: CmpOp, t: Ty, tl: nat, fl: nat, oka: bool, okb: bool, l: nat)
    requires Inline(ga.code, oka, l) && Inline(gb.code, okb, l)
    ensures Branching(ComparCode(ga, gb, op, t, tl, fl).code,
                      oka && okb && IsValueTy(t) && (IsInt(t) || op.Eq? || op.Ne?), l, tl, fl)
  {
    hide InstrsOk, Targets, Count, FlowOf;
    var check := if IsInt(t) || op.Eq? || op.Ne? then [] else [Unreachable];
    var k := ga.code + gb.code;
    InlineCat(ga.code, gb.code, oka, okb, l);
    InlineThen(k, Unreachable, oka && okb, l);
    assert k + [] == k;
    var cmp := Cmp(gb.c.loc, op, Width(t), ga.v, gb.v);
    var br := CondBr(Temp(gb.c.loc), tl, fl);
    assert [cmp] + [br] == [cmp, br];
    Joined([cmp], [br], l);
    Alone(cmp, l);
    Alone(br, l);
    Joined(k + check, [cmp, br], l);
  }

  // Statements

  function Ends(tidy: bool, closes: bool): Flow {
    if !tidy then Bad else if closes then Closed else Open
  }

  /** The three checks on the code of statements, against the checks on the tree. */
  predicate Sound(code: Code, ok: bool, placed: bool, tidy: bool, closes: bool, closes': bool, l: nat, free: bool) {
    && InstrsOk(code) == ok
    && (placed ==> Targets(code, l) ==> Count(code, l) > 0 || free)
    && (placed ==> FlowOf(code, Open) == Ends(tidy, closes) && FlowOf(code, Closed) == Ends(tidy, closes'))
  }

  /** Whether a label may be placed outside of the statements themselves. */
  predicate Outer(loop: bool, el: nat, kl: nat, l: nat) {
    loop && (l == el || l == kl)
  }

  predicate BlockSound(code: Code, ret: Ty, ss: seq<Stmt>, loop: bool, el: nat, kl: nat, l: nat) {
    Sound(code, CompilesStmts(ret, ss), NoMixedIfs(ss) && AllInLoops(ss, loop), AllTidy(ss),
          AllClose(ss, false), AllClose(ss, true), l, Outer(loop, el, kl, l))
  }

  predicate StmtSound(code: Code, ret: Ty, s: Stmt, loop: bool, el: nat, kl: nat, l: nat) {
    Sound(code, CompilesStmt(ret, s), NoMixedIf(s) && InLoops(s, loop), Tidy(s),
          Closes(s, false), Closes(s, true), l, Outer(loop, el, kl, l))
  }

  lemma {:induction false} BlockCode(ret: Ty, el: nat, kl: nat, ls: seq<Local>, c: Ctr, ss: seq<Stmt>, loop: bool,
                                     l: nat)
    ensures BlockSound(GenStmts(ret, el, kl, ls, c, ss).code, ret, ss, loop, el, kl, l)
    decreases ss, 0
  {
    hide InstrsOk, Targets, Count, FlowOf, GenStmt, CompilesStmt, NoMixedIf, InLoops, Tidy, Closes, Exits;
    if ss == [] {
      EmptyCode(l);
    } else {
      var g := GenStmt(ret, el, kl, ls, c, ss[0]);
      StmtCode(ret, el, kl, ls, c, ss[0], loop, l);
      StopsIs(ret, el, kl, ls, c, ss[0]);
      if !g.stop {
        var r := GenStmts(ret, el, kl, g.ls, g.c, ss[1..]);
        BlockCode(ret, el, kl, g.ls, g.c, ss[1..], loop, l);
        Joined(g.code, r.code, l);
      }
    }
  }

  lemma EmptyCode(l: nat)
    ensures InstrsOk([]) && !Targets([], l) && Count([], l) == 0
    ensures FlowOf([], Open) == Open && FlowOf([], Closed) == Closed
  {
  }

  lemma {:induction false} StmtCode(ret: Ty, el: nat, kl: nat, ls: seq<Local>, c: Ctr, s: Stmt, loop: bool, l: nat)
    ensures StmtSound(GenStmt(ret, el, kl, ls, c, s).code, ret, s, loop, el, kl, l)
    decreases s, 2
  {
    hide InstrsOk, Targets, Count, FlowOf, GenExp, GenCond, GenCall, GenStmts, LowersAs, Lowers, LowersArgs, LowersCond;
    match s
    case VarDef(x, _, t, _) =>
      var i, j := Alloca(c.loc, Width(t)), Store(Width(t), Temp(c.loc), Lit(0));
      assert [i] + [j] == [i, j];
      Joined([i], [j], l);
      Alone(i, l);
      Alone(j, l);
    case Assign(x, t, _, e) =>
      var g := GenExp(ls, c, e, t);
      ExpCode(ls, c, e, t, l);
      InlineThen(g.code, Store(Width(t), GenVar(ls, x), g.v), LowersAs(e, t), l);
    case If(_, _) => IfSound(ret, el, kl, ls, c, s, loop, l);
    case IfElse(_, _, _) => IfElseSound(ret, el, kl, ls, c, s, loop, l);
    case While(_, _) => WhileSound(ret, el, kl, ls, c, s, loop, l);
    case Break => Alone(Br(el), l);
    case Continue => Alone(Br(kl), l);
    case Return => Alone(RetVoid, l);
    case ReturnValue(e) =>
      var g := GenExp(ls, c, e, ret);
      ExpCode(ls, c, e, ret, l);
      Joined(g.code, [Ret(Width(ret), g.v)], l);
      Alone(Ret(Width(ret), g.v), l);
    case CallStmt(sig, args) => CallsCode(ls, c, sig, args, l);
    case Block(b) => BlockCode(ret, el, kl, ls, c, b, loop, l);
    case Echo(e) =>
      ExpCode(ls, c, e, TyOf(e), l);
      LowersSame(e);
      EchoFlow(GenExp(ls, c, e, TyOf(e)), TyOf(e), Lowers(e), l);
  }

  lemma EchoFlow(g: ExpGen, t: Ty, ok: bool, l: nat)
    requires Inline(g.code, ok, l)
    ensures var code := EchoCode(g, t).code;
            Inline(code, ok && (t.Char? || HasConversion(t, Long)), l) && FlowOf(code, Closed) == Open
  {
    hide Inline, GenConversion, HasConversion, FlowOf;
    if t.Char? {
      InlineThen(g.code, EchoRt(CharKind, g.v), ok, l);
    } else {
      var k := GenConversion(g.c, t, g.v, Long);
      ConversionCode(g.c, t, g.v, Long, l);
      InlineCat(g.code, k.code, ok, HasConversion(t, Long), l);
      InlineThen(g.code + k.code, EchoRt(IntegerKind, k.v), ok && HasConversion(t, Long), l);
    }
  }

  lemma {:induction false} IfSound(ret: Ty, el: nat, kl: nat, ls: seq<Local>, c: Ctr, s: Stmt, loop: bool, l: nat)
    requires s.If?
    ensures StmtSound(GenStmt(ret, el, kl, ls, c, s).code, ret, s, loop, el, kl, l)
    decreases s, 1
  {
    hide InstrsOk, Targets, Count, FlowOf, GenCond, GenStmts, LowersCond, CompilesStmts, NoMixedIfs, AllInLoops,
      AllTidy, AllClose, Exits;
    var c0 := c.(lab := c.lab + 2);
    var gc := GenCond(ls, c0, s.c, c.lab, c.lab + 1);
    var gt := GenBlock(ret, el, kl, ls, gc.c, s.thn);
    CondCode(ls, c0, s.c, c.lab, c.lab + 1, l);
    BlockCode(ret, el, kl, ls, gc.c, s.thn, loop, l);
    IfFlow(c, gc, gt, if Exits(s.thn) then [] else [Br(c.lab + 1)], l);
    ExitsIfClosed(s.thn);
  }

  /** A block that ends in a terminator exits on all paths. */
  lemma {:induction false} ExitsIfClosed(ss: seq<Stmt>)
    ensures AllClose(ss, false) ==> Exits(ss)
    decreases ss, 0
  {
    if ss != [] && AllClose(ss, false) {
      if !Stops(ss[0]) && !Closes(ss[0], false) {
        ExitsIfClosed(ss[1..]);
      } else {
        StmtExitsIfClosed(ss[0]);
      }
    }
  }

  lemma {:induction false} StmtExitsIfClosed(s: Stmt)
    ensures Stops(s) || Closes(s, false) ==> StmtExits(s)
    decreases s, 0
  {
    if s.Block? {
      ExitsIfClosed(s.body);
    }
  }

  lemma IfFlow(c: Ctr, gc: CodeGen, gt: CodeGen, br: Code, l: nat)
    requires br == [] || (|br| == 1 && br[0].Br?)
    requires FlowOf(gc.code, Open) == Closed && FlowOf(gc.code, Closed) == Closed
    ensures var code := IfCode(c, gc, gt, br);
            && InstrsOk(code) == (InstrsOk(gc.code) && InstrsOk(gt.code))
            && (Targets(code, l) <==> Targets(gc.code, l) || Targets(gt.code, l) || (br != [] && br[0].l == l))
            && Count(code, l) == Count(gc.code, l) + Count(gt.code, l)
                                 + IsLabel(Label(c.lab), l) + IsLabel(Label(c.lab + 1), l)
            && var f := if br == [] || FlowOf(gt.code, Open).Bad? then FlowOf(gt.code, Open) else Closed;
               var end := if f.Closed? then Open else Bad;
               FlowOf(code, Open) == end && FlowOf(code, Closed) == end
  {
    hide InstrsOk, Targets, Count, FlowOf;
    var k1 := gc.code + [Label(c.lab)];
    var k2 := k1 + gt.code;
    Joined(gc.code, [Label(c.lab)], l);
    Alone(Label(c.lab), l);
    Joined(k1, gt.code, l);
    EmptyCode(l);
    if br != [] {
      assert br == [br[0]];
      Alone(br[0], l);
    }
    Joined(k2, br, l);
    Joined(k2 + br, [Label(c.lab + 1)], l);
    Alone(Label(c.lab + 1), l);
  }

  lemma {:induction false} IfElseSound(ret: Ty, el: nat, kl: nat, ls: seq<Local>, c: Ctr, s: Stmt, loop: bool, l: nat)
    requires s.IfElse?
    ensures StmtSound(GenStmt(ret, el, kl, ls, c, s).code, ret, s, loop, el, kl, l)
    decreases s, 1
  {
    hide InstrsOk, Targets, Count, FlowOf, GenCond, GenStmts, LowersCond, CompilesStmts, NoMixedIfs, AllInLoops,
      AllTidy, AllClose, Exits, IfCode, IfElseCode, StmtSound, Sound, Branching;
    var c0 := c.(lab := c.lab + 2);
    var gc := GenCond(ls, c0, s.c, c.lab, c.lab + 1);
    var gt := GenBlock(ret, el, kl, ls, gc.c, s.thn);
    var ce := if Exits(s.thn) && Exits(s.els) then gt.c else gt.c.(lab := gt.c.lab + 1);
    var ge := GenBlock(ret, el, kl, ls, ce, s.els);
    CondCode(ls, c0, s.c, c.lab, c.lab + 1, l);
    BlockCode(ret, el, kl, ls, gc.c, s.thn, loop, l);
    BlockCode(ret, el, kl, ls, ce, s.els, loop, l);
    if Exits(s.thn) && Exits(s.els) {
      BothExitSound(ret, el, kl, c, s, loop, l, gc, gt, ge);
    } else {
      OneOpenSound(ret, el, kl, c, s, loop, l, gc, gt, ge);
    }
  }

  lemma BothExitSound(ret: Ty, el: nat, kl: nat, c: Ctr, s: Stmt, loop: bool, l: nat, gc: CodeGen, gt: CodeGen,
                      ge: CodeGen)
    requires s.IfElse? && Exits(s.thn) && Exits(s.els)
    requires Branching(gc.code, LowersCond(s.c), l, c.lab, c.lab + 1)
    requires BlockSound(gt.code, ret, s.thn, loop, el, kl, l) && BlockSound(ge.code, ret, s.els, loop, el, kl, l)
    ensures StmtSound(IfCode(c, gc, gt, []) + ge.code, ret, s, loop, el, kl, l)
  {
    hide InstrsOk, Targets, Count, FlowOf, LowersCond, CompilesStmts, NoMixedIfs, AllInLoops, AllTidy, AllClose, Exits,
      IfCode;
    ExitsIfClosed(s.thn);
    ExitsIfClosed(s.els);
    IfFlow(c, gc, gt, [], l);
    Joined(IfCode(c, gc, gt, []), ge.code, l);
  }

  lemma OneOpenSound(ret: Ty, el: nat, kl: nat, c: Ctr, s: Stmt, loop: bool, l: nat, gc: CodeGen, gt: CodeGen,
                     ge: CodeGen)
    requires s.IfElse? && !(Exits(s.thn) && Exits(s.els))
    requires Branching(gc.code, LowersCond(s.c), l, c.lab, c.lab + 1)
    requires BlockSound(gt.code, ret, s.thn, loop, el, kl, l) && BlockSound(ge.code, ret, s.els, loop, el, kl, l)
    ensures var endl := gt.c.lab;
            StmtSound(IfElseCode(c, gc, gt, ge, if Exits(s.thn) then [] else [Br(endl)],
                                 if Exits(s.els) then [] else [Br(endl)],
                                 if Exits(s.thn) || Exits(s.els) then [] else [Label(endl)]),
                      ret, s, loop, el, kl, l)
  {
    hide InstrsOk, Targets, Count, FlowOf, LowersCond, CompilesStmts, NoMixedIfs, AllInLoops, AllTidy, AllClose, Exits,
      IfCode, IfElseCode;
    ExitsIfClosed(s.thn);
    ExitsIfClosed(s.els);
    var endl := gt.c.lab;
    var brT := if Exits(s.thn) then [] else [Br(endl)];
    var brE := if Exits(s.els) then [] else [Br(endl)];
    var end := if Exits(s.thn) || Exits(s.els) then [] else [Label(endl)];
    IfFlow(c, gc, gt, brT, l);
    ElseFlow(c, gc, gt, ge, brT, brE, end, l);
    EmptyCode(l);
    Alone(Br(endl), l);
    Alone(Label(endl), l);
  }

  /** What the second arm adds to the code of an `if`. */
  lemma ElseFlow(c: Ctr, gc: CodeGen, gt: CodeGen, ge: CodeGen, brT: Code, brE: Code, end: Code, l: nat)
    ensures var k, code := IfCode(c, gc, gt, brT), IfElseCode(c, gc, gt, ge, brT, brE, end);
            && InstrsOk(code) == (InstrsOk(k) && InstrsOk(ge.code) && InstrsOk(brE) && InstrsOk(end))
            && (Targets(code, l) <==> Targets(k, l) || Targets(ge.code, l) || Targets(brE, l) || Targets(end, l))
            && Count(code, l) == Count(k, l) + Count(ge.code, l) + Count(brE, l) + Count(end, l)
            && FlowOf(code, Open) == FlowOf(end, FlowOf(brE, FlowOf(ge.code, FlowOf(k, Open))))
            && FlowOf(code, Closed) == FlowOf(end, FlowOf(brE, FlowOf(ge.code, FlowOf(k, Closed))))
            && FlowOf(ge.code, Bad) == Bad && FlowOf(brE, Bad) == Bad && FlowOf(end, Bad) == Bad
  {
    hide InstrsOk, Targets, Count, FlowOf, IfCode;
    var k := IfCode(c, gc, gt, brT);
    Joined(k, ge.code, l);
    Joined(k + ge.code, brE, l);
    Joined(k + ge.code + brE, end, l);
  }

  lemma {:induction false} WhileSound(ret: Ty, el: nat, kl: nat, ls: seq<Local>, c: Ctr, s: Stmt, loop: bool, l: nat)
    requires s.While?
    ensures StmtSound(GenStmt(ret, el, kl, ls, c, s).code, ret, s, loop, el, kl, l)
    decreases s, 1
  {
    hide InstrsOk, Targets, Count, FlowOf, GenCond, GenStmts, LowersCond, CompilesStmts, NoMixedIfs, AllInLoops,
      AllTidy, AllClose, Exits, WhileCode;
    var endl, bl, chk := c.lab, c.lab + 1, c.lab + 2;
    var c1 := c.(lab := c.lab + 3);
    var g1 := GenCond(ls, c1, s.c, bl, endl);
    var gb := GenBlock(ret, endl, chk, ls, g1.c, s.body);
    var g2 := GenCond(ls, gb.c, s.c, bl, endl);
    CondCode(ls, c1, s.c, bl, endl, l);
    BlockCode(ret, endl, chk, ls, g1.c, s.body, true, l);
    CondCode(ls, gb.c, s.c, bl, endl, l);
    WhileFlow(c, g1, gb, g2, if Exits(s.body) then [] else [Br(chk)], l);
    ExitsIfClosed(s.body);
  }

  lemma WhileFlow(c: Ctr, g1: CodeGen, gb: CodeGen, g2: CodeGen, br: Code, l: nat)
    requires br == [] || br == [Br(c.lab + 2)]
    requires FlowOf(g1.code, Open) == Closed && FlowOf(g1.code, Closed) == Closed
    requires FlowOf(g2.code, Open) == Closed
    ensures var code := WhileCode(c, g1, gb, g2, br);
            && InstrsOk(code) == (InstrsOk(g1.code) && InstrsOk(gb.code) && InstrsOk(g2.code))
            && (Targets(code, l) ==>
                  Targets(g1.code, l) || Targets(gb.code, l) || Targets(g2.code, l) || l == c.lab + 2)
            && Count(code, l) == Count(g1.code, l) + Count(gb.code, l) + Count(g2.code, l)
                                 + IsLabel(Label(c.lab), l) + IsLabel(Label(c.lab + 1), l)
                                 + IsLabel(Label(c.lab + 2), l)
            && var f := if br == [] || FlowOf(gb.code, Open).Bad? then FlowOf(gb.code, Open) else Closed;
               var end := if f.Closed? then Open else Bad;
               FlowOf(code, Open) == end && FlowOf(code, Closed) == end
  {
    hide InstrsOk, Targets, Count, FlowOf;
    var k1 := g1.code + [Label(c.lab + 1)];
    var k2 := k1 + gb.code;
    var k3 := k2 + br;
    var k4 := k3 + [Label(c.lab + 2)];
    var k5 := k4 + g2.code;
    Joined(g1.code, [Label(c.lab + 1)], l);
    Alone(Label(c.lab + 1), l);
    Joined(k1, gb.code, l);
    EmptyCode(l);
    Alone(Br(c.lab + 2), l);
    Joined(k2, br, l);
    Joined(k3, [Label(c.lab + 2)], l);
    Alone(Label(c.lab + 2), l);
    Joined(k4, g2.code, l);
    Joined(k5, [Label(c.lab)], l);
    Alone(Label(c.lab), l);
  }

  // A conditional with one exiting arm branches to a label that is placed nowhere

  /** A label of this code that is branched to and not placed. */
  predicate Dangling(code: Code, c: Ctr, d: Ctr, l: nat) {
    Targets(code, l) && Count(code, l) == 0 && c.lab <= l < d.lab
  }

  lemma {:induction false} MixedBlock(ret: Ty, el: nat, kl: nat, ls: seq<Local>, c: Ctr, ss: seq<Stmt>) returns (l: nat)
    requires !NoMixedIfs(ss)
    ensures var g := GenStmts(ret, el, kl, ls, c, ss); Dangling(g.code, c, g.c, l)
    decreases ss, 0
  {
    hide Targets, Count, GenStmt, NoMixedIf, Stops, Defs, Scan;
    var g := GenStmt(ret, el, kl, ls, c, ss[0]);
    StopsIs(ret, el, kl, ls, c, ss[0]);
    if !NoMixedIf(ss[0]) {
      l := MixedStmt(ret, el, kl, ls, c, ss[0]);
    } else {
      l := MixedBlock(ret, el, kl, g.ls, g.c, ss[1..]);
    }
    FreshStmt(ret, el, kl, ls, c, ss[0], l);
    if !g.stop {
      FreshStmts(ret, el, kl, g.ls, g.c, ss[1..], l);
      Joined(g.code, GenStmts(ret, el, kl, g.ls, g.c, ss[1..]).code, l);
    }
  }

  lemma {:induction false} MixedStmt(ret: Ty, el: nat, kl: nat, ls: seq<Local>, c: Ctr, s: Stmt) returns (l: nat)
    requires !NoMixedIf(s)
    ensures var g := GenStmt(ret, el, kl, ls, c, s); Dangling(g.code, c, g.c, l)
    decreases s, 2
  {
    hide Targets, Count, GenStmts, GenCond, NoMixedIfs, IfElseCode, IfCode, WhileCode, Defs, Scan, Exits, InstrsOk,
      FlowOf;
    match s
    case Block(b) => l := MixedBlock(ret, el, kl, ls, c, b);
    case If(cond, t) =>
      var c0 := c.(lab := c.lab + 2);
      var gc := GenCond(ls, c0, cond, c.lab, c.lab + 1);
      l := MixedBlock(ret, el, kl, ls, gc.c, t);
      CondCode(ls, c0, cond, c.lab, c.lab + 1, l);
      FreshCond(ls, c0, cond, c.lab, c.lab + 1, l);
      IfFlow(c, gc, GenBlock(ret, el, kl, ls, gc.c, t), if Exits(t) then [] else [Br(c.lab + 1)], l);
    case While(cond, body) =>
      var c1 := c.(lab := c.lab + 3);
      var g1 := GenCond(ls, c1, cond, c.lab + 1, c.lab);
      l := MixedBlock(ret, c.lab, c.lab + 2, ls, g1.c, body);
      var gb := GenBlock(ret, c.lab, c.lab + 2, ls, g1.c, body);
      FreshCond(ls, c1, cond, c.lab + 1, c.lab, l);
      FreshCond(ls, gb.c, cond, c.lab + 1, c.lab, l);
      CondCode(ls, c1, cond, c.lab + 1, c.lab, l);
      CondCode(ls, gb.c, cond, c.lab + 1, c.lab, l);
      WhileKeeps(c, g1, gb, GenCond(ls, gb.c, cond, c.lab + 1, c.lab), if Exits(body) then [] else [Br(c.lab + 2)], l);
    case IfElse(_, _, _) => l := MixedIfElse(ret, el, kl, ls, c, s);
  }

  lemma WhileKeeps(c: Ctr, g1: CodeGen, gb: CodeGen, g2: CodeGen, br: Code, l: nat)
    requires br == [] || br == [Br(c.lab + 2)]
    requires FlowOf(g1.code, Open) == Closed && FlowOf(g1.code, Closed) == Closed
    requires FlowOf(g2.code, Open) == Closed
    ensures var code := WhileCode(c, g1, gb, g2, br);
            && (Targets(gb.code, l) ==> Targets(code, l))
            && Count(code, l) == Count(g1.code, l) + Count(gb.code, l) + Count(g2.code, l)
                                 + IsLabel(Label(c.lab), l) + IsLabel(Label(c.lab + 1), l)
                                 + IsLabel(Label(c.lab + 2), l)
  {
    hide InstrsOk, Targets, Count, FlowOf;
    var k1 := g1.code + [Label(c.lab + 1)];
    var k2 := k1 + gb.code;
    var k3 := k2 + br;
    var k4 := k3 + [Label(c.lab + 2)];
    WhileFlow(c, g1, gb, g2, br, l);
    TargetsCat(k1, gb.code, l);
    TargetsCat(k2, br, l);
    TargetsCat(k3, [Label(c.lab + 2)], l);
    TargetsCat(k4, g2.code, l);
    TargetsCat(k4 + g2.code, [Label(c.lab)], l);
  }

  lemma {:induction false} MixedIfElse(ret: Ty, el: nat, kl: nat, ls: seq<Local>, c: Ctr, s: Stmt) returns (l: nat)
    requires s.IfElse? && !NoMixedIf(s)
    ensures var g := GenStmt(ret, el, kl, ls, c, s); Dangling(g.code, c, g.c, l)
    decreases s, 1
  {
    hide Targets, Count, GenStmt, GenBlock, GenCond, NoMixedIf, IfCode, IfElseCode, Defs, Scan, Exits, InstrsOk,
      FlowOf;
    IfElseIs(ret, el, kl, ls, c, s);
    var both := Exits(s.thn) && Exits(s.els);
    var gc := GenCond(ls, c.(lab := c.lab + 2), s.c, c.lab, c.lab + 1);
    var gt := GenBlock(ret, el, kl, ls, gc.c, s.thn);
    var ge := GenBlock(ret, el, kl, ls, if both then gt.c else gt.c.(lab := gt.c.lab + 1), s.els);
    l := MixedArm(ret, el, kl, ls, c, s, gc, gt, ge);
    CondCode(ls, c.(lab := c.lab + 2), s.c, c.lab, c.lab + 1, l);
    if both {
      BothDangling(c, gc, gt, ge, l);
    } else {
      OneDangling(c, gc, gt, ge, Exits(s.thn), Exits(s.els), l);
    }
  }

  /** The label is in one of the arms, or it is the end label. */
  lemma {:induction false} MixedArm(ret: Ty, el: nat, kl: nat, ls: seq<Local>, c: Ctr, s: Stmt, gc: CodeGen,
                                    gt: CodeGen, ge: CodeGen) returns (l: nat)
    requires s.IfElse? && !NoMixedIf(s)
    requires gc == GenCond(ls, c.(lab := c.lab + 2), s.c, c.lab, c.lab + 1)
    requires gt == GenBlock(ret, el, kl, ls, gc.c, s.thn)
    requires ge == GenBlock(ret, el, kl, ls,
                            if Exits(s.thn) && Exits(s.els) then gt.c else gt.c.(lab := gt.c.lab + 1), s.els)
    ensures Targets(gt.code, l) || Targets(ge.code, l) || (Exits(s.thn) != Exits(s.els) && l == gt.c.lab)
    ensures Count(gc.code, l) == 0 && Count(gt.code, l) == 0 && Count(ge.code, l) == 0
    ensures c.lab + 2 <= l < ge.c.lab
    ensures l == gt.c.lab && !(Exits(s.thn) && Exits(s.els)) ==> Exits(s.thn) != Exits(s.els)
    decreases s, 0
  {
    hide Targets, Count, GenStmts, GenCond, NoMixedIfs, Defs, Scan, Exits;
    var ce := if Exits(s.thn) && Exits(s.els) then gt.c else gt.c.(lab := gt.c.lab + 1);
    if !NoMixedIfs(s.thn) {
      l := MixedBlock(ret, el, kl, ls, gc.c, s.thn);
    } else if !NoMixedIfs(s.els) {
      l := MixedBlock(ret, el, kl, ls, ce, s.els);
    } else {
      l := gt.c.lab;
    }
    FreshCond(ls, c.(lab := c.lab + 2), s.c, c.lab, c.lab + 1, l);
    FreshBlock(ret, el, kl, ls, gc.c, s.thn, l);
    FreshBlock(ret, el, kl, ls, ce, s.els, l);
  }

  lemma BothDangling(c: Ctr, gc: CodeGen, gt: CodeGen, ge: CodeGen, l: nat)
    requires FlowOf(gc.code, Open) == Closed && FlowOf(gc.code, Closed) == Closed
    ensures var code := IfCode(c, gc, gt, []) + ge.code;
            && (Targets(gt.code, l) || Targets(ge.code, l) ==> Targets(code, l))
            && Count(code, l) == Count(gc.code, l) + Count(gt.code, l) + Count(ge.code, l)
                                 + IsLabel(Label(c.lab), l) + IsLabel(Label(c.lab + 1), l)
  {
    hide InstrsOk, Targets, Count, FlowOf, IfCode;
    IfFlow(c, gc, gt, [], l);
    Joined(IfCode(c, gc, gt, []), ge.code, l);
  }

  lemma OneDangling(c: Ctr, gc: CodeGen, gt: CodeGen, ge: CodeGen, exitsT: bool, exitsE: bool, l: nat)
    requires FlowOf(gc.code, Open) == Closed && FlowOf(gc.code, Closed) == Closed
    ensures var endl := gt.c.lab;
            var code := IfElseCode(c, gc, gt, ge, if exitsT then [] else [Br(endl)], if exitsE then [] else [Br(endl)],
                                   if exitsT || exitsE then [] else [Label(endl)]);
            && (Targets(gt.code, l) || Targets(ge.code, l) || (exitsT != exitsE && l == endl) ==> Targets(code, l))
            && Count(code, l) == Count(gc.code, l) + Count(gt.code, l) + Count(ge.code, l)
                                 + IsLabel(Label(c.lab), l) + IsLabel(Label(c.lab + 1), l)
                                 + if exitsT || exitsE then 0 else IsLabel(Label(endl), l)
  {
    hide InstrsOk, Targets, Count, FlowOf, IfCode, IfElseCode;
    var endl := gt.c.lab;
    var brT := if exitsT then [] else [Br(endl)];
    var brE := if exitsE then [] else [Br(endl)];
    IfFlow(c, gc, gt, brT, l);
    ElseFlow(c, gc, gt, ge, brT, brE, if exitsT || exitsE then [] else [Label(endl)], l);
    EmptyCode(l);
    Alone(Br(endl), l);
    Alone(Label(endl), l);
  }

  // Functions

  lemma {:induction false} ParamsCode(params: seq<string>, ts: seq<Ty>, n: nat, l: nat)
    requires n <= |params| && n <= |ts|
    ensures var code := GenParams(params, ts, n);
            && InstrsOk(code) == (forall i :: 0 <= i < n ==> IsValueTy(ts[i]))
            && !Targets(code, l) && FlowOf(code, Open) == Open
  {
    hide InstrsOk, Targets, Count, FlowOf;
    if n == 0 {
      EmptyCode(l);
    } else {
      ParamsCode(params, ts, n - 1, l);
      var w := Width(ts[n - 1]);
      var i, j := Alloca(n - 1, w), Store(w, Temp(n - 1), Arg(n - 1));
      assert [i] + [j] == [i, j];
      Joined([i], [j], l);
      Alone(i, l);
      Alone(j, l);
      Joined(GenParams(params, ts, n - 1), [i, j], l);
    }
  }

  /** The condition on the tree of a function. */
  predicate CompilesFunc(f: Func) {
    && (forall i :: 0 <= i < |f.sig.params| ==> IsValueTy(f.sig.params[i]))
    && LowersStmts(f.sig.ret, f.body)
    && AllTidy(f.body)
    && (Exits(f.body) ==> AllClose(f.body, false))
  }

  lemma {:induction false} FuncCode(f: Func, el: nat, kl: nat, l: nat)
    requires |f.params| == |f.sig.params|
    ensures var n := |f.params|;
            var g := GenBlock(f.sig.ret, el, kl, ParamLocals(f.params, f.sig.params, n), Ctr(n, 0), f.body);
            var code := GenFunc(f, el, kl);
            && InstrsOk(code) == ((forall i :: 0 <= i < n ==> IsValueTy(f.sig.params[i])) && InstrsOk(g.code))
            && Targets(code, l) == Targets(g.code, l) && Count(code, l) == Count(g.code, l)
            && FlowOf(code, Open) ==
               if f.sig.ret.Void? && !Exits(f.body) && !FlowOf(g.code, Open).Bad? then Closed else FlowOf(g.code, Open)
  {
    hide InstrsOk, Targets, Count, FlowOf, GenBlock, GenParams, Exits, Defs, Scan;
    var n := |f.params|;
    var g := GenBlock(f.sig.ret, el, kl, ParamLocals(f.params, f.sig.params, n), Ctr(n, 0), f.body);
    var k1 := GenParams(f.params, f.sig.params, n);
    var k2 := if f.sig.name == "main" then [InitRt] else [];
    var k4 := if f.sig.ret.Void? && !Exits(f.body) then [RetVoid] else [];
    ParamsCode(f.params, f.sig.params, n, l);
    FreshParams(f.params, f.sig.params, n, l);
    EmptyCode(l);
    Alone(InitRt, l);
    Alone(RetVoid, l);
    Joined(k1, k2, l);
    Joined(k1 + k2, g.code, l);
    Joined(k1 + k2 + g.code, k4, l);
  }

  /** Each check of the code against the part of the tree check that decides it. */
  lemma {:induction false} CodeChecks(f: Func, el: nat, kl: nat)
    requires |f.params| == |f.sig.params|
    requires AllInLoops(f.body, false) && (f.sig.ret.Void? || Exits(f.body))
    ensures var code := GenFunc(f, el, kl);
            && (InstrsOk(code) <==> (forall i :: 0 <= i < |f.sig.params| ==> IsValueTy(f.sig.params[i]))
                                    && CompilesStmts(f.sig.ret, f.body))
            && (TargetsPlaced(code) <==> NoMixedIfs(f.body))
            && (NoMixedIfs(f.body) ==>
                  && (Terminated(code) <==> AllTidy(f.body) && (Exits(f.body) ==> AllClose(f.body, false)))
                  && (FlowOf(code, Open).Bad? <==> !AllTidy(f.body)))
  {
    hide InstrsOk, Targets, Count, FlowOf, GenStmts, GenFunc, Exits, AllClose, AllTidy, CompilesStmts, NoMixedIfs,
      AllInLoops;
    var n := |f.params|;
    var ls := ParamLocals(f.params, f.sig.params, n);
    var code := GenFunc(f, el, kl);
    FuncCode(f, el, kl, 0);
    BlockCode(f.sig.ret, el, kl, ls, Ctr(n, 0), f.body, false, 0);
    ExitsIfClosed(f.body);
    if !NoMixedIfs(f.body) {
      var l := MixedBlock(f.sig.ret, el, kl, ls, Ctr(n, 0), f.body);
      FuncCode(f, el, kl, l);
      assert Targets(code, l) && Count(code, l) == 0;
    } else {
      forall l | Targets(code, l) ensures Count(code, l) > 0 {
        FuncCode(f, el, kl, l);
        BlockCode(f.sig.ret, el, kl, ls, Ctr(n, 0), f.body, false, l);
      }
    }
  }

  /** The code of an accepted function is well formed exactly when no `if` has a single exiting arm, no statement
      after an exit leaves a block open, and every compiled expression has code. */
  lemma WellFormedIff(f: Func, el: nat, kl: nat)
    requires |f.params| == |f.sig.params|
    requires AllInLoops(f.body, false) && (f.sig.ret.Void? || Exits(f.body))
    ensures WellFormedCode(GenFunc(f, el, kl)) <==> CompilesFunc(f)
  {
    hide InstrsOk, TargetsPlaced, Terminated, GenFunc, Exits, AllClose, AllTidy, CompilesStmts, NoMixedIfs,
      UniqueLabels, IncreasingTemps, AllInLoops;
    NamesAreFresh(f, el, kl);
    CodeChecks(f, el, kl);
  }

  // The smallest trees for which a check of the code fails

  const ZERO := IntLit(0, Int)
  const IS_ZERO := Compar(false, Eq, ZERO, ZERO)
  const CLEAR := Assign("x", Int, VarDefinition(0), ZERO)

  /** `f() { if (0 == 0) { x = 0; } else { return; } x = 0; }` with `x` global. */
  function OneArm(): Func {
    Func(Sig("f", [], Void), [], [], [IfElse(IS_ZERO, [CLEAR], [Return]), CLEAR])
  }

  /** The branch over the else part has no target; nothing else is wrong. */
  lemma OneArmExits(el: nat, kl: nat)
    ensures AllInLoops(OneArm().body, false)
    ensures var code := GenFunc(OneArm(), el, kl); InstrsOk(code) && exists l :: Targets(code, l) && Count(code, l) == 0
  {
    hide GenFunc, InstrsOk, Targets, Count, Terminated;
    var i := OneArm().body[0];
    One(CLEAR, Void, false, false);
    One(Return, Void, false, false);
    Two(i, CLEAR, Void, false, false);
    CodeChecks(OneArm(), el, kl);
    assert !TargetsPlaced(GenFunc(OneArm(), el, kl));
  }

  /** `f() { while (0 == 0) { break; x = 0; } }` with `x` global. */
  function AfterBreak(): Func {
    Func(Sig("f", [], Void), [], [], [While(IS_ZERO, [Break, CLEAR])])
  }

  /** The store after the break is compiled into a block that runs into the label of the check; nothing else is
      wrong. */
  lemma CodeAfterBreak(el: nat, kl: nat)
    ensures AllInLoops(AfterBreak().body, false)
    ensures var code := GenFunc(AfterBreak(), el, kl);
            InstrsOk(code) && TargetsPlaced(code) && FlowOf(code, Open) == Bad
  {
    hide GenFunc, InstrsOk, TargetsPlaced, FlowOf;
    var w := AfterBreak().body[0];
    Two(Break, CLEAR, Void, true, false);
    assert !Tidy(w);
    One(w, Void, false, false);
    CodeChecks(AfterBreak(), el, kl);
  }

  lemma Empty(ret: Ty, loop: bool, closed: bool)
    ensures AllInLoops([], loop) && CompilesStmts(ret, []) && NoMixedIfs([]) && AllTidy([]) && !Exits([])
    ensures AllClose([], closed) == closed
  {
  }

  /** The checks of a block with one statement, and of one with two. */
  lemma One(s: Stmt, ret: Ty, loop: bool, closed: bool)
    ensures AllInLoops([s], loop) == InLoops(s, loop) && CompilesStmts(ret, [s]) == CompilesStmt(ret, s)
    ensures NoMixedIfs([s]) == NoMixedIf(s) && AllTidy([s]) == Tidy(s) && Exits([s]) == StmtExits(s)
    ensures AllClose([s], closed) == Closes(s, closed)
  {
    assert [s][1..] == [];
    Empty(ret, loop, closed);
    Empty(ret, loop, Closes(s, closed));
  }

  lemma Two(s: Stmt, t: Stmt, ret: Ty, loop: bool, closed: bool)
    ensures AllInLoops([s, t], loop) == (InLoops(s, loop) && InLoops(t, loop))
    ensures CompilesStmts(ret, [s, t]) == (CompilesStmt(ret, s) && (Stops(s) || CompilesStmt(ret, t)))
    ensures NoMixedIfs([s, t]) == (NoMixedIf(s) && (Stops(s) || NoMixedIf(t)))
    ensures Exits([s, t]) == (StmtExits(s) || StmtExits(t))
    ensures AllClose([s, t], closed) == if Stops(s) then Closes(s, closed) else Closes(t, Closes(s, closed))
  {
    assert [s, t][1..] == [t];
    One(t, ret, loop, Closes(s, closed));
  }
}
