/** Names in emitted code: each label is placed at most once, and temporaries are defined in increasing
    order, each once. */
module Shape {
  import opened Ast
  import opened Machine
  import opened Codegen

  function Dst(i: Instr): Option<nat> {
    match i
    case Alloca(d, _) => Some(d)
    case Load(d, _, _) => Some(d)
    case Arith(d, _, _, _, _) => Some(d)
    case Cmp(d, _, _, _, _) => Some(d)
    case Sext(d, _, _, _) => Some(d)
    case Trunc(d, _, _, _) => Some(d)
    case Phi(d, _, _, _, _, _) => Some(d)
    case CallExp(d, _, _, _) => Some(d)
    case _ => None
  }

  predicate UniqueLabels(code: Code) {
    forall i, j :: 0 <= i < j < |code| && code[i].Label? ==> code[i] != code[j]
  }

  predicate IncreasingTemps(code: Code) {
    forall i, j :: 0 <= i < j < |code| && Dst(code[i]).Some? && Dst(code[j]).Some? ==>
      Dst(code[i]).value < Dst(code[j]).value
  }

  /** How often a label is placed. */
  function Count(code: Code, l: nat): nat {
    if code == [] then 0
    else (if code[0] == Label(l) then 1 else 0) + Count(code[1..], l)
  }

  /** Reads the definitions in order, starting at temporary `lo`; none if one is not above those before it,
      otherwise the first temporary that is still free. */
  function Scan(code: Code, lo: nat): Option<nat> {
    if code == [] then Some(lo)
    else
      match Dst(code[0])
      case None => Scan(code[1..], lo)
      case Some(d) => if d < lo then None else Scan(code[1..], d + 1)
  }

  predicate Defs(code: Code, lo: nat, hi: nat) {
    lo <= hi && Scan(code, lo).Some? && Scan(code, lo).value <= hi
  }

  function Among(lo: nat, hi: nat, l: nat): nat {
    if lo <= l < hi then 1 else 0
  }

  lemma {:induction false} ScanBelow(code: Code, lo: nat, mid: nat)
    requires lo <= mid && Scan(code, mid).Some?
    ensures Scan(code, lo).Some? && Scan(code, lo).value <= Scan(code, mid).value
  {
    if code != [] && Dst(code[0]).None? {
      ScanBelow(code[1..], lo, mid);
    }
  }

  lemma {:induction false} CountCat(a: Code, b: Code, l: nat)
    ensures Count(a + b, l) == Count(a, l) + Count(b, l)
    decreases a
  {
    if a == [] {
      assert a + b == b;
    } else {
      CountCat(a[1..], b, l);
      assert (a + b)[1..] == a[1..] + b;
    }
  }

  lemma {:induction false} DefsCat(a: Code, b: Code, lo: nat, mid: nat, hi: nat)
    requires Defs(a, lo, mid) && Defs(b, mid, hi)
    ensures Defs(a + b, lo, hi)
    decreases a
  {
    if a == [] {
      assert a + b == b;
      ScanBelow(b, lo, mid);
    } else {
      var next := if Dst(a[0]).Some? then Dst(a[0]).value + 1 else lo;
      ScanUp(a[1..], next);
      DefsCat(a[1..], b, next, mid, hi);
      assert (a + b)[1..] == a[1..] + b;
    }
  }

  lemma Cat(a: Code, b: Code, l: nat, lo: nat, mid: nat, hi: nat)
    requires Defs(a, lo, mid) && Defs(b, mid, hi)
    ensures Count(a + b, l) == Count(a, l) + Count(b, l)
    ensures Defs(a + b, lo, hi)
  {
    CountCat(a, b, l);
    DefsCat(a, b, lo, mid, hi);
  }

  lemma {:induction false} ScanUp(code: Code, lo: nat)
    requires Scan(code, lo).Some?
    ensures lo <= Scan(code, lo).value
  {
    if code != [] {
      ScanUp(code[1..], if Dst(code[0]).Some? then Dst(code[0]).value + 1 else lo);
    }
  }

  function IsLabel(i: Instr, l: nat): nat {
    if i == Label(l) then 1 else 0
  }

  lemma Single(i: Instr, l: nat, lo: nat)
    ensures Count([i], l) == IsLabel(i, l)
    ensures Dst(i).None? ==> Defs([i], lo, lo)
    ensures Dst(i) == Some(lo) ==> Defs([i], lo, lo + 1)
    ensures Dst(i) == Some(lo + 1) ==> Defs([i], lo, lo + 2)
  {
  }

  lemma Pair(i: Instr, j: Instr, l: nat, lo: nat)
    ensures Count([i, j], l) == IsLabel(i, l) + IsLabel(j, l)
    ensures Dst(i).None? && Dst(j).None? ==> Defs([i, j], lo, lo)
    ensures Dst(i).None? && Dst(j) == Some(lo) ==> Defs([i, j], lo, lo + 1)
    ensures Dst(i) == Some(lo) && Dst(j).None? ==> Defs([i, j], lo, lo + 1)
  {
    assert [i, j] == [i] + [j];
    CountCat([i], [j], l);
    Single(i, l, lo);
    Single(j, l, lo);
    Single(j, l, lo + 1);
    if Dst(i).None? && Dst(j).None? {
      DefsCat([i], [j], lo, lo, lo);
    } else if Dst(i).None? && Dst(j) == Some(lo) {
      DefsCat([i], [j], lo, lo, lo + 1);
    } else if Dst(i) == Some(lo) && Dst(j).None? {
      DefsCat([i], [j], lo, lo + 1, lo + 1);
    }
  }

  lemma Triple(i: Instr, j: Instr, k: Instr, l: nat, lo: nat)
    requires Dst(i).None? && Dst(j).None? && Dst(k).None?
    ensures Count([i, j, k], l) == IsLabel(i, l) + IsLabel(j, l) + IsLabel(k, l)
    ensures Defs([i, j, k], lo, lo)
  {
    assert [i, j, k] == [i] + [j, k];
    Single(i, l, lo);
    Pair(j, k, l, lo);
    Cat([i], [j, k], l, lo, lo, lo);
  }

  predicate CtrLe(c: Ctr, d: Ctr) {
    c.loc <= d.loc && c.lab <= d.lab
  }

  /** Code emitted between the counters `c` and `d` uses only names between them, the label `l` at most once. */
  predicate Fresh(code: Code, c: Ctr, d: Ctr, l: nat) {
    CtrLe(c, d) && Defs(code, c.loc, d.loc) && Count(code, l) <= Among(c.lab, d.lab, l)
  }

  predicate Below(v: Operand, n: nat) {
    v.Temp? ==> v.id < n
  }

  lemma FreshNil(c: Ctr, l: nat)
    ensures Fresh([], c, c, l)
  {
  }

  lemma Join(a: Code, b: Code, c0: Ctr, c1: Ctr, c2: Ctr, l: nat)
    requires Fresh(a, c0, c1, l) && Fresh(b, c1, c2, l)
    ensures Fresh(a + b, c0, c2, l)
  {
    Cat(a, b, l, c0.loc, c1.loc, c2.loc);
  }

  lemma Append(a: Code, i: Instr, c0: Ctr, c1: Ctr, l: nat)
    requires Fresh(a, c0, c1, l) && !i.Label?
    ensures Dst(i).None? ==> Fresh(a + [i], c0, c1, l)
    ensures Dst(i) == Some(c1.loc) ==> Fresh(a + [i], c0, c1.(loc := c1.loc + 1), l)
    ensures Dst(i) == Some(c1.loc + 1) ==> Fresh(a + [i], c0, c1.(loc := c1.loc + 2), l)
  {
    Single(i, l, c1.loc);
    if Dst(i).None? {
      Cat(a, [i], l, c0.loc, c1.loc, c1.loc);
    } else if Dst(i) == Some(c1.loc) {
      Cat(a, [i], l, c0.loc, c1.loc, c1.loc + 1);
    } else if Dst(i) == Some(c1.loc + 1) {
      Cat(a, [i], l, c0.loc, c1.loc, c1.loc + 2);
    }
  }

  // Expressions

  lemma {:induction false} FreshConversion(c: Ctr, from: Ty, v: Operand, to: Ty, l: nat)
    requires Below(v, c.loc)
    ensures var g := GenConversion(c, from, v, to); Fresh(g.code, c, g.c, l) && Below(g.v, g.c.loc)
    decreases from.Char?
  {
    var g := GenConversion(c, from, v, to);
    if from.Char? && from != to && !to.Void? {
      FreshConversion(c, Byte, v, to, l);
    } else if g.code != [] {
      assert g.code == [g.code[0]];
      Single(g.code[0], l, c.loc);
    }
  }

  lemma {:induction false} FreshExp(ls: seq<Local>, c: Ctr, e: Exp, t: Ty, l: nat)
    ensures var g := GenExp(ls, c, e, t); Fresh(g.code, c, g.c, l) && Below(g.v, g.c.loc)
    decreases e, 2
  {
    FreshTyped(ls, c, e, l);
    var b := GenTyped(ls, c, e);
    var k := GenConversion(b.c, TyOf(e), b.v, t);
    FreshConversion(b.c, TyOf(e), b.v, t, l);
    Join(b.code, k.code, c, b.c, k.c, l);
  }

  lemma {:induction false} FreshTyped(ls: seq<Local>, c: Ctr, e: Exp, l: nat)
    ensures var g := GenTyped(ls, c, e); Fresh(g.code, c, g.c, l) && Below(g.v, g.c.loc)
    decreases e, 1
  {
    hide Count, Scan, Defs;
    match e
    case IntLit(_, _) => FreshNil(c, l);
    case CharLit(_) => FreshNil(c, l);
    case Var(x, t, _) => Single(Load(c.loc, Width(t), GenVar(ls, x)), l, c.loc);
    case Unary(_, _, _) => FreshUnary(ls, c, e, l);
    case Binary(_, _, _, _) => FreshBinary(ls, c, e, l);
    case Cast(a, _, t) => FreshExp(ls, c, a, t, l);
    case Call(sig, args) => FreshCall(ls, c, sig, args, l);
    case Conditional(_, _, _, _) => FreshChoice(ls, c, e, l);
  }

  lemma {:induction false} FreshUnary(ls: seq<Local>, c: Ctr, e: Exp, l: nat)
    requires e.Unary?
    ensures var g := GenTyped(ls, c, e); Fresh(g.code, c, g.c, l) && Below(g.v, g.c.loc)
    decreases e, 0
  {
    hide Count, Scan, Defs;
    FreshExp(ls, c, e.arg, TyOf(e.arg), l);
    FreshNegate(c, GenExp(ls, c, e.arg, TyOf(e.arg)), Width(TyOf(e.arg)), l);
  }

  lemma {:induction false} FreshBinary(ls: seq<Local>, c: Ctr, e: Exp, l: nat)
    requires e.Binary?
    ensures var g := GenTyped(ls, c, e); Fresh(g.code, c, g.c, l) && Below(g.v, g.c.loc)
    decreases e, 0
  {
    hide Count, Scan, Defs;
    FreshExp(ls, c, e.l, e.bty, l);
    var gl := GenExp(ls, c, e.l, e.bty);
    FreshExp(ls, gl.c, e.r, e.bty, l);
    FreshArith(c, gl, GenExp(ls, gl.c, e.r, e.bty), e.bop, Width(e.bty), l);
  }

  lemma {:induction false} FreshChoice(ls: seq<Local>, c: Ctr, e: Exp, l: nat)
    requires e.Conditional?
    ensures var g := GenTyped(ls, c, e); Fresh(g.code, c, g.c, l) && Below(g.v, g.c.loc)
    decreases e, 0
  {
    hide GenCond, GenPlainCond, Count, Scan, Defs, Fresh;
    FreshCond(ls, c.(lab := c.lab + 3), e.cond, c.lab, c.lab + 1, l);
    var gc := GenCond(ls, c.(lab := c.lab + 3), e.cond, c.lab, c.lab + 1);
    FreshExp(ls, gc.c, e.thn, e.ety, l);
    var ga := GenExp(ls, gc.c, e.thn, e.ety);
    FreshExp(ls, ga.c.(lab := ga.c.lab + 1), e.els, e.ety, l);
    var gb := GenExp(ls, ga.c.(lab := ga.c.lab + 1), e.els, e.ety);
    FreshConditional(c, gc, ga, gb, Width(e.ety), l);
  }

  lemma FreshNegate(c: Ctr, g: ExpGen, w: nat, l: nat)
    requires Fresh(g.code, c, g.c, l)
    ensures Fresh(NegateCode(g, w).code, c, NegateCode(g, w).c, l)
    ensures Fresh(AbortCode(g.code, g.c).code, c, g.c, l)
  {
    hide Count, Scan, Defs;
    Append(g.code, Arith(g.c.loc + 1, Sub, w, Lit(0), g.v), c, g.c, l);
    Append(g.code, Unreachable, c, g.c, l);
  }

  lemma FreshArith(c: Ctr, ga: ExpGen, gb: ExpGen, op: BinOp, w: nat, l: nat)
    requires Fresh(ga.code, c, ga.c, l) && Fresh(gb.code, ga.c, gb.c, l)
    ensures var g := ArithCode(ga, gb, op, w); Fresh(g.code, c, g.c, l)
    ensures Fresh(AbortCode(ga.code + gb.code, gb.c).code, c, gb.c, l)
  {
    hide Count, Scan, Defs;
    Join(ga.code, gb.code, c, ga.c, gb.c, l);
    Append(ga.code + gb.code, Arith(gb.c.loc, op, w, ga.v, gb.v), c, gb.c, l);
    Append(ga.code + gb.code, Unreachable, c, gb.c, l);
  }

  lemma FreshArm(before: Code, tl: nat, g: ExpGen, el: nat, l: nat, lo: nat, mid: nat)
    requires Defs(before, lo, mid) && Defs(g.code, mid, g.c.loc)
    ensures var code := ArmCode(before, tl, g, el);
            && Count(code, l) == Count(before, l) + IsLabel(Label(tl), l) + Count(g.code, l)
                                 + IsLabel(Label(g.c.lab), l)
            && Defs(code, lo, g.c.loc)
  {
    hide Count, Scan, Defs;
    var te := g.c.lab;
    var k1 := before + [Label(tl)];
    Single(Label(tl), l, mid);
    Cat(before, [Label(tl)], l, lo, mid, mid);
    var k2 := k1 + g.code;
    Cat(k1, g.code, l, lo, mid, g.c.loc);
    Triple(Br(te), Label(te), Br(el), l, g.c.loc);
    Cat(k2, [Br(te), Label(te), Br(el)], l, lo, g.c.loc, g.c.loc);
  }

  lemma {:induction false} FreshConditional(c: Ctr, gc: CodeGen, ga: ExpGen, gb: ExpGen, w: nat, l: nat)
    requires Fresh(gc.code, c.(lab := c.lab + 3), gc.c, l)
    requires Fresh(ga.code, gc.c, ga.c, l)
    requires Fresh(gb.code, ga.c.(lab := ga.c.lab + 1), gb.c, l)
    ensures var g := ConditionalCode(c, gc, ga, gb, w); Fresh(g.code, c, g.c, l)
  {
    hide Count, Scan, Defs, ArmCode;
    var el := c.lab + 2;
    var first := ArmCode(gc.code, c.lab, ga, el);
    FreshArm(gc.code, c.lab, ga, el, l, c.loc, gc.c.loc);
    FreshArm(first, c.lab + 1, gb, el, l, c.loc, ga.c.loc);
    var phi := Phi(gb.c.loc, w, ga.c.lab, ga.v, gb.c.lab, gb.v);
    Pair(Label(el), phi, l, gb.c.loc);
    Cat(ArmCode(first, c.lab + 1, gb, el), [Label(el), phi], l, c.loc, gb.c.loc, gb.c.loc + 1);
  }

  lemma {:induction false} FreshCall(ls: seq<Local>, c: Ctr, sig: Sig, args: seq<Exp>, l: nat)
    ensures var g := GenCall(ls, c, sig, args); Fresh(g.code, c, g.c, l) && Below(g.v, g.c.loc)
    decreases args, 1
  {
    FreshArgs(ls, c, args, sig.params, l);
    FreshCallCode(c, GenArgs(ls, c, args, sig.params), sig, l);
  }

  lemma FreshCallCode(c: Ctr, g: ArgsGen, sig: Sig, l: nat)
    requires Fresh(g.code, c, g.c, l)
    ensures Fresh(CallCode(g, sig).code, c, CallCode(g, sig).c, l)
  {
    Append(g.code, CallExp(g.c.loc, Width(sig.ret), sig.name, g.vs), c, g.c, l);
    Append(g.code, CallVoid(sig.name, g.vs), c, g.c, l);
  }

  lemma {:induction false} FreshArgs(ls: seq<Local>, c: Ctr, es: seq<Exp>, ts: seq<Ty>, l: nat)
    ensures var g := GenArgs(ls, c, es, ts); Fresh(g.code, c, g.c, l)
    decreases es, 0
  {
    if es != [] && ts != [] {
      FreshExp(ls, c, es[0], ts[0], l);
      var g := GenExp(ls, c, es[0], ts[0]);
      FreshArgs(ls, g.c, es[1..], ts[1..], l);
      var r := GenArgs(ls, g.c, es[1..], ts[1..]);
      Join(g.code, r.code, c, g.c, r.c, l);
    }
  }

  lemma {:induction false} FreshCond(ls: seq<Local>, c: Ctr, cond: Cond, tl: nat, fl: nat, l: nat)
    ensures var g := GenCond(ls, c, cond, tl, fl); Fresh(g.code, c, g.c, l)
    decreases cond, 1
  {
    if cond.negate {
      FreshPlainCond(ls, c, cond, fl, tl, l);
    } else {
      FreshPlainCond(ls, c, cond, tl, fl, l);
    }
  }

  lemma {:induction false} FreshPlainCond(ls: seq<Local>, c: Ctr, cond: Cond, tl: nat, fl: nat, l: nat)
    ensures var g := GenPlainCond(ls, c, cond, tl, fl); Fresh(g.code, c, g.c, l)
    decreases cond, 0
  {
    hide Count, Scan, Defs, GenExp, GenTyped;
    match cond
    case BinCond(_, op, a, b) =>
      var nl := c.lab;
      var c0 := c.(lab := nl + 1);
      var ga := if op.And? then GenCond(ls, c0, a, nl, fl) else GenCond(ls, c0, a, tl, nl);
      FreshCond(ls, c0, a, if op.And? then nl else tl, if op.And? then fl else nl, l);
      FreshCond(ls, ga.c, b, tl, fl, l);
      var gb := GenCond(ls, ga.c, b, tl, fl);
      Single(Label(nl), l, ga.c.loc);
      Cat(ga.code, [Label(nl)], l, c.loc, ga.c.loc, ga.c.loc);
      Cat(ga.code + [Label(nl)], gb.code, l, c.loc, ga.c.loc, gb.c.loc);
    case Compar(_, op, a, b) =>
      var t := TyOf(a);
      FreshExp(ls, c, a, t, l);
      var ga := GenExp(ls, c, a, t);
      FreshExp(ls, ga.c, b, t, l);
      var gb := GenExp(ls, ga.c, b, t);
      FreshCompar(c, ga, gb, op, t, tl, fl, l);
  }

  lemma {:induction false} FreshCompar(c: Ctr, ga: ExpGen, gb: ExpGen, op: CmpOp, t: Ty, tl: nat, fl: nat, l: nat)
    requires Fresh(ga.code, c, ga.c, l) && Fresh(gb.code, ga.c, gb.c, l)
    ensures var g := ComparCode(ga, gb, op, t, tl, fl); Fresh(g.code, c, g.c, l)
  {
    hide Count, Scan, Defs;
    var k := ga.code + gb.code;
    Join(ga.code, gb.code, c, ga.c, gb.c, l);
    Append(k, Unreachable, c, gb.c, l);
    assert k + [] == k;
    var cmp := [Cmp(gb.c.loc, op, Width(t), ga.v, gb.v), CondBr(Temp(gb.c.loc), tl, fl)];
    Pair(cmp[0], cmp[1], l, gb.c.loc);
    Cat(k, cmp, l, c.loc, gb.c.loc, gb.c.loc + 1);
    Cat(k + [Unreachable], cmp, l, c.loc, gb.c.loc, gb.c.loc + 1);
  }

  // Statements

  lemma {:induction false} FreshBlock(ret: Ty, el: nat, kl: nat, ls: seq<Local>, c: Ctr, b: seq<Stmt>, l: nat)
    ensures var g := GenBlock(ret, el, kl, ls, c, b); Fresh(g.code, c, g.c, l)
    decreases b, 1
  {
    FreshStmts(ret, el, kl, ls, c, b, l);
  }

  lemma {:induction false} FreshStmts(ret: Ty, el: nat, kl: nat, ls: seq<Local>, c: Ctr, ss: seq<Stmt>, l: nat)
    ensures var g := GenStmts(ret, el, kl, ls, c, ss); Fresh(g.code, c, g.c, l)
    decreases ss, 0
  {
    hide Count, Scan, Defs, GenExp, GenTyped, GenCond, GenPlainCond;
    if ss == [] {
      FreshNil(c, l);
    } else {
      FreshStmt(ret, el, kl, ls, c, ss[0], l);
      var g := GenStmt(ret, el, kl, ls, c, ss[0]);
      if !g.stop {
        FreshStmts(ret, el, kl, g.ls, g.c, ss[1..], l);
        var r := GenStmts(ret, el, kl, g.ls, g.c, ss[1..]);
        Join(g.code, r.code, c, g.c, r.c, l);
      }
    }
  }

  lemma FreshEcho(c: Ctr, g: ExpGen, t: Ty, l: nat)
    requires Fresh(g.code, c, g.c, l) && Below(g.v, g.c.loc)
    ensures Fresh(EchoCode(g, t).code, c, EchoCode(g, t).c, l)
  {
    hide Count, Scan, Defs;
    if t.Char? {
      Append(g.code, EchoRt(CharKind, g.v), c, g.c, l);
    } else {
      var k := GenConversion(g.c, t, g.v, Long);
      FreshConversion(g.c, t, g.v, Long, l);
      Join(g.code, k.code, c, g.c, k.c, l);
      Append(g.code + k.code, EchoRt(IntegerKind, k.v), c, k.c, l);
    }
  }

  lemma {:induction false} FreshStmt(ret: Ty, el: nat, kl: nat, ls: seq<Local>, c: Ctr, s: Stmt, l: nat)
    ensures var g := GenStmt(ret, el, kl, ls, c, s); Fresh(g.code, c, g.c, l)
    decreases s, 1
  {
    hide Count, Scan, Defs, GenExp, GenTyped, GenCond, GenPlainCond, GenStmts;
    match s
    case VarDef(x, _, t, _) => Pair(Alloca(c.loc, Width(t)), Store(Width(t), Temp(c.loc), Lit(0)), l, c.loc);
    case Assign(x, t, _, e) =>
      FreshExp(ls, c, e, t, l);
      var g := GenExp(ls, c, e, t);
      Append(g.code, Store(Width(t), GenVar(ls, x), g.v), c, g.c, l);
    case If(cond, t) =>
      FreshCond(ls, c.(lab := c.lab + 2), cond, c.lab, c.lab + 1, l);
      var gc := GenCond(ls, c.(lab := c.lab + 2), cond, c.lab, c.lab + 1);
      FreshBlock(ret, el, kl, ls, gc.c, t, l);
      var gt := GenBlock(ret, el, kl, ls, gc.c, t);
      FreshIf(c, gc, gt, if Exits(t) then [] else [Br(c.lab + 1)], l);
    case IfElse(_, _, _) => FreshBoth(ret, el, kl, ls, c, s, l);
    case While(_, _) => FreshLoop(ret, el, kl, ls, c, s, l);
    case Break => Single(Br(el), l, c.loc);
    case Continue => Single(Br(kl), l, c.loc);
    case Return => Single(RetVoid, l, c.loc);
    case ReturnValue(e) =>
      FreshExp(ls, c, e, ret, l);
      var g := GenExp(ls, c, e, ret);
      Append(g.code, Ret(Width(ret), g.v), c, g.c, l);
    case CallStmt(sig, args) => FreshCall(ls, c, sig, args, l);
    case Block(b) => FreshBlock(ret, el, kl, ls, c, b, l);
    case Echo(e) =>
      FreshExp(ls, c, e, TyOf(e), l);
      FreshEcho(c, GenExp(ls, c, e, TyOf(e)), TyOf(e), l);
  }

  lemma {:induction false} FreshBoth(ret: Ty, el: nat, kl: nat, ls: seq<Local>, c: Ctr, s: Stmt, l: nat)
    requires s.IfElse?
    ensures var g := GenStmt(ret, el, kl, ls, c, s); Fresh(g.code, c, g.c, l)
    decreases s, 0
  {
    hide Count, Scan, Defs, GenStmt, GenCond, GenBlock, Exits, IfCode, IfElseCode;
    IfElseIs(ret, el, kl, ls, c, s);
    FreshCond(ls, c.(lab := c.lab + 2), s.c, c.lab, c.lab + 1, l);
    var gc := GenCond(ls, c.(lab := c.lab + 2), s.c, c.lab, c.lab + 1);
    FreshBlock(ret, el, kl, ls, gc.c, s.thn, l);
    var gt := GenBlock(ret, el, kl, ls, gc.c, s.thn);
    if Exits(s.thn) && Exits(s.els) {
      FreshBlock(ret, el, kl, ls, gt.c, s.els, l);
      var ge := GenBlock(ret, el, kl, ls, gt.c, s.els);
      FreshIf(c, gc, gt, [], l);
      Join(IfCode(c, gc, gt, []), ge.code, c, gt.c, ge.c, l);
    } else {
      var endl := gt.c.lab;
      FreshBlock(ret, el, kl, ls, gt.c.(lab := endl + 1), s.els, l);
      FreshIfElse(c, gc, gt, GenBlock(ret, el, kl, ls, gt.c.(lab := endl + 1), s.els),
                  if Exits(s.thn) then [] else [Br(endl)], if Exits(s.els) then [] else [Br(endl)],
                  if Exits(s.thn) || Exits(s.els) then [] else [Label(endl)], l);
    }
  }

  lemma {:induction false} FreshLoop(ret: Ty, el: nat, kl: nat, ls: seq<Local>, c: Ctr, s: Stmt, l: nat)
    requires s.While?
    ensures var g := GenStmt(ret, el, kl, ls, c, s); Fresh(g.code, c, g.c, l)
    decreases s, 0
  {
    hide Count, Scan, Defs, GenStmt, GenCond, GenBlock, Exits, WhileCode;
    WhileIs(ret, el, kl, ls, c, s);
    var endl, bl, chk := c.lab, c.lab + 1, c.lab + 2;
    FreshCond(ls, c.(lab := c.lab + 3), s.c, bl, endl, l);
    var g1 := GenCond(ls, c.(lab := c.lab + 3), s.c, bl, endl);
    FreshBlock(ret, endl, chk, ls, g1.c, s.body, l);
    var gb := GenBlock(ret, endl, chk, ls, g1.c, s.body);
    FreshCond(ls, gb.c, s.c, bl, endl, l);
    FreshWhile(c, g1, gb, GenCond(ls, gb.c, s.c, bl, endl), if Exits(s.body) then [] else [Br(chk)], l);
  }

  /** Nothing, or one branch. */
  predicate OptBranch(code: Code) {
    code == [] || (|code| == 1 && code[0].Br?)
  }

  lemma BranchNames(code: Code, l: nat, lo: nat)
    requires OptBranch(code)
    ensures Count(code, l) == 0 && Defs(code, lo, lo)
  {
    if code != [] {
      assert code == [code[0]];
      Single(code[0], l, lo);
    }
  }

  lemma {:induction false} FreshIf(c: Ctr, gc: CodeGen, gt: CodeGen, br: Code, l: nat)
    requires Fresh(gc.code, c.(lab := c.lab + 2), gc.c, l) && Fresh(gt.code, gc.c, gt.c, l)
    requires OptBranch(br)
    ensures Fresh(IfCode(c, gc, gt, br), c, gt.c, l)
  {
    hide Count, Scan, Defs;
    var k1 := gc.code + [Label(c.lab)];
    Single(Label(c.lab), l, gc.c.loc);
    Cat(gc.code, [Label(c.lab)], l, c.loc, gc.c.loc, gc.c.loc);
    var k2 := k1 + gt.code;
    Cat(k1, gt.code, l, c.loc, gc.c.loc, gt.c.loc);
    var k3 := k2 + br;
    BranchNames(br, l, gt.c.loc);
    Cat(k2, br, l, c.loc, gt.c.loc, gt.c.loc);
    Single(Label(c.lab + 1), l, gt.c.loc);
    Cat(k3, [Label(c.lab + 1)], l, c.loc, gt.c.loc, gt.c.loc);
  }

  lemma {:induction false} FreshIfElse(c: Ctr, gc: CodeGen, gt: CodeGen, ge: CodeGen,
                                       brT: Code, brE: Code, end: Code, l: nat)
    requires Fresh(gc.code, c.(lab := c.lab + 2), gc.c, l) && Fresh(gt.code, gc.c, gt.c, l)
    requires Fresh(ge.code, gt.c.(lab := gt.c.lab + 1), ge.c, l)
    requires OptBranch(brT) && OptBranch(brE) && (end == [] || end == [Label(gt.c.lab)])
    ensures Fresh(IfElseCode(c, gc, gt, ge, brT, brE, end), c, ge.c, l)
  {
    hide Count, Scan, Defs;
    FreshIf(c, gc, gt, brT, l);
    var k1 := IfCode(c, gc, gt, brT);
    var k2 := k1 + ge.code;
    Cat(k1, ge.code, l, c.loc, gt.c.loc, ge.c.loc);
    var k3 := k2 + brE;
    BranchNames(brE, l, ge.c.loc);
    Cat(k2, brE, l, c.loc, ge.c.loc, ge.c.loc);
    Single(Label(gt.c.lab), l, ge.c.loc);
    Cat(k3, [Label(gt.c.lab)], l, c.loc, ge.c.loc, ge.c.loc);
    assert k3 + [] == k3;
  }

  lemma {:induction false} FreshWhile(c: Ctr, g1: CodeGen, gb: CodeGen, g2: CodeGen, br: Code, l: nat)
    requires Fresh(g1.code, c.(lab := c.lab + 3), g1.c, l) && Fresh(gb.code, g1.c, gb.c, l)
    requires Fresh(g2.code, gb.c, g2.c, l) && OptBranch(br)
    ensures Fresh(WhileCode(c, g1, gb, g2, br), c, g2.c, l)
  {
    hide Count, Scan, Defs;
    var lo := c.loc;
    var k1 := g1.code + [Label(c.lab + 1)];
    Single(Label(c.lab + 1), l, g1.c.loc);
    Cat(g1.code, [Label(c.lab + 1)], l, lo, g1.c.loc, g1.c.loc);
    var k2 := k1 + gb.code;
    Cat(k1, gb.code, l, lo, g1.c.loc, gb.c.loc);
    var k3 := k2 + br;
    BranchNames(br, l, gb.c.loc);
    Cat(k2, br, l, lo, gb.c.loc, gb.c.loc);
    var k4 := k3 + [Label(c.lab + 2)];
    Single(Label(c.lab + 2), l, gb.c.loc);
    Cat(k3, [Label(c.lab + 2)], l, lo, gb.c.loc, gb.c.loc);
    var k5 := k4 + g2.code;
    Cat(k4, g2.code, l, lo, gb.c.loc, g2.c.loc);
    Single(Label(c.lab), l, g2.c.loc);
    Cat(k5, [Label(c.lab)], l, lo, g2.c.loc, g2.c.loc);
  }

  // Functions

  lemma {:induction false} FreshParams(params: seq<string>, ts: seq<Ty>, n: nat, l: nat)
    requires n <= |params| && n <= |ts|
    ensures Fresh(GenParams(params, ts, n), Ctr(0, 0), Ctr(n, 0), l)
  {
    if n > 0 {
      FreshParams(params, ts, n - 1, l);
      var w := Width(ts[n - 1]);
      Pair(Alloca(n - 1, w), Store(w, Temp(n - 1), Arg(n - 1)), l, n - 1);
      Join(GenParams(params, ts, n - 1), [Alloca(n - 1, w), Store(w, Temp(n - 1), Arg(n - 1))],
           Ctr(0, 0), Ctr(n - 1, 0), Ctr(n, 0), l);
    }
  }

  lemma {:induction false} FreshFuncAt(f: Func, el: nat, kl: nat, l: nat)
    requires |f.params| == |f.sig.params|
    ensures Count(GenFunc(f, el, kl), l) <= 1
    ensures Scan(GenFunc(f, el, kl), 0).Some?
  {
    var n := |f.params|;
    var ls := ParamLocals(f.params, f.sig.params, n);
    var g := GenBlock(f.sig.ret, el, kl, ls, Ctr(n, 0), f.body);
    FreshParams(f.params, f.sig.params, n, l);
    FreshBlock(f.sig.ret, el, kl, ls, Ctr(n, 0), f.body, l);
    var k1 := GenParams(f.params, f.sig.params, n);
    var init := if f.sig.name == "main" then [InitRt] else [];
    var last := if f.sig.ret.Void? && !Exits(f.body) then [RetVoid] else [];
    Append(k1, InitRt, Ctr(0, 0), Ctr(n, 0), l);
    assert k1 + [] == k1;
    Join(k1 + init, g.code, Ctr(0, 0), Ctr(n, 0), g.c, l);
    Append(k1 + init + g.code, RetVoid, Ctr(0, 0), g.c, l);
    assert k1 + init + g.code + [] == k1 + init + g.code;
  }

  lemma {:induction false} CountTwo(code: Code, l: nat, i: nat, j: nat)
    requires i < j < |code| && code[i] == code[j] == Label(l)
    ensures Count(code, l) >= 2
  {
    if i > 0 {
      CountTwo(code[1..], l, i - 1, j - 1);
    } else {
      CountOne(code[1..], l, j - 1);
    }
  }

  lemma {:induction false} CountOne(code: Code, l: nat, i: nat)
    requires i < |code| && code[i] == Label(l)
    ensures Count(code, l) >= 1
  {
    if i > 0 {
      CountOne(code[1..], l, i - 1);
    }
  }

  lemma {:induction false} ScanFrom(code: Code, lo: nat, j: nat)
    requires Scan(code, lo).Some? && j < |code| && Dst(code[j]).Some?
    ensures lo <= Dst(code[j]).value
  {
    if j > 0 {
      ScanFrom(code[1..], if Dst(code[0]).Some? then Dst(code[0]).value + 1 else lo, j - 1);
    }
  }

  lemma {:induction false} ScanOrder(code: Code, lo: nat, i: nat, j: nat)
    requires Scan(code, lo).Some? && i < j < |code| && Dst(code[i]).Some? && Dst(code[j]).Some?
    ensures Dst(code[i]).value < Dst(code[j]).value
  {
    var next := if Dst(code[0]).Some? then Dst(code[0]).value + 1 else lo;
    if i > 0 {
      ScanOrder(code[1..], next, i - 1, j - 1);
    } else {
      ScanFrom(code[1..], next, j - 1);
    }
  }

  /** In the code of a function no label is placed twice, and temporaries are defined in increasing order. */
  lemma {:induction false} NamesAreFresh(f: Func, el: nat, kl: nat)
    requires |f.params| == |f.sig.params|
    ensures UniqueLabels(GenFunc(f, el, kl)) && IncreasingTemps(GenFunc(f, el, kl))
  {
    var code := GenFunc(f, el, kl);
    forall i, j | 0 <= i < j < |code| && code[i].Label? ensures code[i] != code[j] {
      FreshFuncAt(f, el, kl, code[i].l);
      if code[i] == code[j] {
        CountTwo(code, code[i].l, i, j);
      }
    }
    FreshFuncAt(f, el, kl, 0);
    forall i, j | 0 <= i < j < |code| && Dst(code[i]).Some? && Dst(code[j]).Some?
      ensures Dst(code[i]).value < Dst(code[j]).value
    {
      ScanOrder(code, 0, i, j);
    }
  }
}
