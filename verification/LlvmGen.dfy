/** The code generator as it runs: counters that are bumped, a stack of locals, loop labels that are saved and
    restored, and instructions appended one at a time. */
module LlvmGen {
  import opened Ast
  import opened Machine
  import opened Codegen

  class LlvmGenContext {
    var nextLocalId: nat
    var nextLabel: nat
    var locals: seq<Local>
    var endLabel: nat
    var checkLabel: nat
    var out: Code

    constructor ()
      ensures nextLocalId == 0 && nextLabel == 0 && locals == [] && out == []
    {
      nextLocalId, nextLabel, locals, out := 0, 0, [], [];
    }

    function Counters(): Ctr
      reads this
    {
      Ctr(nextLocalId, nextLabel)
    }

    /** The code appended and the counters left; locals and loop labels are as before. */
    twostate predicate Emitted(code: Code, c: Ctr)
      reads this
    {
      && out == old(out) + code && Counters() == c
      && locals == old(locals) && endLabel == old(endLabel) && checkLabel == old(checkLabel)
    }

    method Emit(i: Instr)
      modifies this`out
      ensures out == old(out) + [i]
    {
      out := out + [i];
    }

    method NewTemp() returns (id: nat)
      modifies this`nextLocalId
      ensures id == old(nextLocalId) && nextLocalId == id + 1
    {
      id := nextLocalId;
      nextLocalId := nextLocalId + 1;
    }

    method NewLabel() returns (l: nat)
      modifies this`nextLabel
      ensures l == old(nextLabel) && nextLabel == l + 1
    {
      l := nextLabel;
      nextLabel := nextLabel + 1;
    }

    method ResetBlockContext()
      modifies this`nextLocalId, this`nextLabel, this`locals
      ensures nextLocalId == 0 && nextLabel == 0 && locals == []
    {
      nextLocalId, nextLabel, locals := 0, 0, [];
    }

    method AddLocal(x: string, t: Ty) returns (d: Local)
      modifies this`nextLocalId, this`locals
      ensures d == Local(x, t, old(nextLocalId)) && nextLocalId == old(nextLocalId) + 1
      ensures locals == old(locals) + [d]
    {
      var id := NewTemp();
      d := Local(x, t, id);
      locals := locals + [d];
    }

    /** Searches the stack from its top. */
    method SearchLocal(x: string) returns (d: Option<Local>)
      ensures d == FindLocal(locals, x)
    {
      var i := |locals|;
      assert locals[..i] == locals;
      while i > 0
        invariant 0 <= i <= |locals|
        invariant FindLocal(locals, x) == FindLocal(locals[..i], x)
      {
        i := i - 1;
        assert locals[..i + 1][..i] == locals[..i];
        if locals[i].name == x {
          return Some(locals[i]);
        }
      }
      d := None;
    }

    method CompileLocal(x: string, t: Ty) returns (v: nat)
      modifies this
      ensures v == old(nextLocalId) && nextLocalId == v + 1 && nextLabel == old(nextLabel)
      ensures locals == old(locals) + [Local(x, t, v)] && out == old(out) + [Alloca(v, Width(t))]
      ensures endLabel == old(endLabel) && checkLabel == old(checkLabel)
    {
      var d := AddLocal(x, t);
      Emit(Alloca(d.slot, Width(t)));
      v := d.slot;
    }

    method CompileVar(x: string) returns (v: Operand)
      ensures v == GenVar(locals, x)
    {
      var d := SearchLocal(x);
      v := if d.Some? then Temp(d.value.slot) else Global(x);
    }

    // Expressions

    method CompileIntToInt(from: Ty, v: Operand, to: Ty) returns (r: Operand)
      modifies this
      ensures var g := GenIntToInt(old(Counters()), from, v, to); Emitted(g.code, g.c) && r == g.v
    {
      r := v;
      if Width(from) < Width(to) {
        var id := NewTemp();
        Emit(Sext(id, Width(from), v, Width(to)));
        r := Temp(id);
      } else if Width(from) > Width(to) {
        var id := NewTemp();
        Emit(Trunc(id, Width(from), v, Width(to)));
        r := Temp(id);
      }
    }

    method CompileConversion(from: Ty, v: Operand, to: Ty) returns (r: Operand)
      modifies this
      ensures var g := GenConversion(old(Counters()), from, v, to); Emitted(g.code, g.c) && r == g.v
      decreases from.Char?
    {
      r := v;
      if from == to {
        return;
      }
      if !from.Void? && !to.Void? {
        if IsInt(from) {
          if IsInt(to) {
            r := CompileIntToInt(from, v, to);
            return;
          }
        } else if from.Char? {
          r := CompileConversion(Byte, v, to);
          return;
        }
      }
      Emit(Unreachable);
      r := NoValue;
    }

    method CompileExp(e: Exp, target: Ty) returns (v: Operand)
      modifies this
      ensures var g := GenExp(old(locals), old(Counters()), e, target); Emitted(g.code, g.c) && v == g.v
      decreases e, 3
    {
      hide GenTyped, GenConversion;
      ghost var start, b := out, GenTyped(locals, Counters(), e);
      v := CompileTyped(e);
      if target != TyOf(e) {
        v := CompileConversion(TyOf(e), v, target);
        Assoc(start, b.code, GenConversion(b.c, TyOf(e), b.v, target).code);
      } else {
        NoConversion(b.c, TyOf(e), b.v);
        assert b.code + [] == b.code;
      }
    }

    method CompileTyped(e: Exp) returns (v: Operand)
      modifies this
      ensures var g := GenTyped(old(locals), old(Counters()), e); Emitted(g.code, g.c) && v == g.v
      decreases e, 2
    {
      hide GenExp, GenCond, GenArgs;
      match e
      case IntLit(n, _) => v := Lit(n);
      case CharLit(k) => v := Lit(k);
      case Var(x, t, _) =>
        var addr := CompileVar(x);
        var id := NewTemp();
        Emit(Load(id, Width(t), addr));
        v := Temp(id);
      case Unary(op, a, _) =>
        v := CompileUnop(e);
      case Binary(_, _, _, _) =>
        v := CompileBinop(e);
      case Cast(a, _, t) => v := CompileExp(a, t);
      case Conditional(_, _, _, _) => v := CompileConditional(e);
      case Call(sig, args) => v := CompileCall(sig, args);
    }

    method CompileUnop(e: Exp) returns (v: Operand)
      requires e.Unary?
      modifies this
      ensures var g := GenTyped(old(locals), old(Counters()), e); Emitted(g.code, g.c) && v == g.v
      decreases e, 1
    {
      hide GenExp;
      var t := TyOf(e.arg);
      var a := CompileExp(e.arg, t);
      if e.uop.Negative? {
        var unused := NewTemp();
        var id := NewTemp();
        Emit(Arith(id, Sub, Width(t), Lit(0), a));
        v := Temp(id);
      } else {
        Emit(Unreachable);
        v := NoValue;
      }
    }

    method CompileBinop(e: Exp) returns (v: Operand)
      requires e.Binary?
      modifies this
      ensures var g := GenTyped(old(locals), old(Counters()), e); Emitted(g.code, g.c) && v == g.v
      decreases e, 1
    {
      hide GenExp;
      var a := CompileExp(e.l, e.bty);
      var b := CompileExp(e.r, e.bty);
      if IsInt(e.bty) {
        var id := NewTemp();
        Emit(Arith(id, e.bop, Width(e.bty), a, b));
        v := Temp(id);
      } else {
        Emit(Unreachable);
        v := NoValue;
      }
    }

    method CompileConditional(e: Exp) returns (v: Operand)
      requires e.Conditional?
      modifies this
      ensures var g := GenTyped(old(locals), old(Counters()), e); Emitted(g.code, g.c) && v == g.v
      decreases e, 1
    {
      hide GenExp, GenCond, GenTyped, ArmCode;
      ghost var start, c := out, Counters();
      ConditionalIs(locals, c, e);
      ghost var gc := GenCond(locals, c.(lab := c.lab + 3), e.cond, c.lab, c.lab + 1);
      ghost var ga := GenExp(locals, gc.c, e.thn, e.ety);
      ghost var gb := GenExp(locals, ga.c.(lab := ga.c.lab + 1), e.els, e.ety);
      var tl := NewLabel();
      var fl := NewLabel();
      var el := NewLabel();
      CompileCondition(e.cond, tl, fl);
      var a, te := CompileArm(tl, e.thn, e.ety, el, start, gc.code);
      ghost var k := ArmCode(gc.code, tl, ga, el);
      var b, fe := CompileArm(fl, e.els, e.ety, el, start, k);
      k := ArmCode(k, fl, gb, el);
      Emit(Label(el));
      var id := NewTemp();
      Emit(Phi(id, Width(e.ety), te, a, fe, b));
      PhiIs(start, k, Label(el), Phi(id, Width(e.ety), te, a, fe, b));
      v := Temp(id);
    }

    /** One arm and the block it ends in; `before` is the code emitted since `start`. */
    method CompileArm(l: nat, e: Exp, t: Ty, el: nat, ghost start: Code, ghost before: Code)
        returns (v: Operand, endBlock: nat)
      requires out == start + before
      modifies this
      ensures var g := GenExp(old(locals), old(Counters()), e, t);
              && v == g.v && endBlock == g.c.lab && Counters() == g.c.(lab := g.c.lab + 1)
              && out == start + ArmCode(before, l, g, el)
      ensures locals == old(locals) && endLabel == old(endLabel) && checkLabel == old(checkLabel)
      decreases e, 4
    {
      hide GenExp, ArmCode;
      ghost var g := GenExp(locals, Counters(), e, t);
      Emit(Label(l));
      v := CompileExp(e, t);
      endBlock := NewLabel();
      Emit(Br(endBlock));
      Emit(Label(endBlock));
      Emit(Br(el));
      ArmIs(start, before, l, g, el);
    }

    method CompileCall(sig: Sig, args: seq<Exp>) returns (v: Operand)
      modifies this
      ensures var g := GenCall(old(locals), old(Counters()), sig, args); Emitted(g.code, g.c) && v == g.v
      decreases args, 1
    {
      hide GenArgs;
      var vs := CompileArgs(args, sig.params);
      if !sig.ret.Void? {
        var id := NewTemp();
        Emit(CallExp(id, Width(sig.ret), sig.name, vs));
        v := Temp(id);
      } else {
        Emit(CallVoid(sig.name, vs));
        v := NoValue;
      }
    }

    /** The arguments, left to right, each at the type of its parameter. */
    method CompileArgs(es: seq<Exp>, ts: seq<Ty>) returns (vs: seq<CallArg>)
      modifies this
      ensures var g := GenArgs(old(locals), old(Counters()), es, ts); Emitted(g.code, g.c) && vs == g.vs
      decreases es, 0
    {
      hide GenExp;
      vs := [];
      ghost var g := GenArgs(locals, Counters(), es, ts);
      var i := 0;
      while i < |es| && i < |ts|
        invariant 0 <= i <= |es| && i <= |ts|
        invariant locals == old(locals) && endLabel == old(endLabel) && checkLabel == old(checkLabel)
        invariant var r := GenArgs(locals, Counters(), es[i..], ts[i..]);
                  old(out) + g.code == out + r.code && g.vs == vs + r.vs && g.c == r.c
      {
        ghost var before, c := out, Counters();
        var v := CompileExp(es[i], ts[i]);
        vs := vs + [CallArg(Width(ts[i]), v)];
        assert es[i..][1..] == es[i + 1..] && ts[i..][1..] == ts[i + 1..];
        ghost var r := GenArgs(locals, Counters(), es[i + 1..], ts[i + 1..]);
        assert out + r.code == before + (GenExp(locals, c, es[i], ts[i]).code + r.code);
        i := i + 1;
      }
    }

    // Conditions

    method CompileCondition(cond: Cond, tl: nat, fl: nat)
      modifies this
      ensures var g := GenCond(old(locals), old(Counters()), cond, tl, fl); Emitted(g.code, g.c)
      decreases cond, 2
    {
      hide GenPlainCond;
      var t, f := tl, fl;
      if cond.negate {
        t, f := f, t;
      }
      match cond
      case BinCond(_, _, _, _) => CompileBinCond(cond, t, f);
      case Compar(_, _, _, _) => CompileComparison(cond, t, f);
    }

    method CompileBinCond(cond: Cond, tl: nat, fl: nat)
      requires cond.BinCond?
      modifies this
      ensures var g := GenPlainCond(old(locals), old(Counters()), cond, tl, fl); Emitted(g.code, g.c)
      decreases cond, 1
    {
      hide GenCond;
      var next := NewLabel();
      if cond.cop.And? {
        CompileCondition(cond.lc, next, fl);
        Emit(Label(next));
        CompileCondition(cond.rc, tl, fl);
      } else {
        CompileCondition(cond.lc, tl, next);
        Emit(Label(next));
        CompileCondition(cond.rc, tl, fl);
      }
    }

    method CompileComparison(cond: Cond, tl: nat, fl: nat)
      requires cond.Compar?
      modifies this
      ensures var g := GenPlainCond(old(locals), old(Counters()), cond, tl, fl); Emitted(g.code, g.c)
      decreases cond, 1
    {
      hide GenExp;
      var t := TyOf(cond.le);
      var a := CompileExp(cond.le, t);
      var b := CompileExp(cond.re, t);
      if !IsInt(t) && !cond.cmp.Eq? && !cond.cmp.Ne? {
        Emit(Unreachable);
      }
      var id := NewTemp();
      Emit(Cmp(id, cond.cmp, Width(t), a, b));
      Emit(CondBr(Temp(id), tl, fl));
    }

    // Statements

    /** Whether the statement is one after which nothing can be reached; a definition adds a local. */
    method CompileStatement(ret: Ty, s: Stmt) returns (stop: bool)
      modifies this
      ensures var g := GenStmt(ret, old(endLabel), old(checkLabel), old(locals), old(Counters()), s);
              && out == old(out) + g.code && Counters() == g.c && locals == g.ls && stop == g.stop
              && endLabel == old(endLabel) && checkLabel == old(checkLabel)
      decreases s, 2
    {
      hide GenExp, GenCond, GenStmts, GenArgs, Exits;
      stop := false;
      match s
      case VarDef(x, _, t, _) =>
        var addr := CompileLocal(x, t);
        Emit(Store(Width(t), Temp(addr), Lit(0)));
      case Assign(x, t, _, e) =>
        var addr := CompileVar(x);
        var v := CompileExp(e, t);
        Emit(Store(Width(t), addr, v));
      case If(_, _) =>
        var tl := NewLabel();
        var fl := NewLabel();
        stop := CompileIf(ret, s, tl, fl);
      case IfElse(_, _, _) =>
        var tl := NewLabel();
        var fl := NewLabel();
        stop := CompileIf(ret, s, tl, fl);
      case While(_, _) =>
        var el := NewLabel();
        CompileWhile(ret, s, el);
      case Break => Emit(Br(endLabel));
      case Continue => Emit(Br(checkLabel));
      case Return =>
        Emit(RetVoid);
        stop := true;
      case ReturnValue(e) =>
        var v := CompileExp(e, ret);
        Emit(Ret(Width(ret), v));
        stop := true;
      case CallStmt(sig, args) =>
        var v := CompileCall(sig, args);
      case Block(b) => CompileBlock(ret, b);
      case Echo(e) => CompileEcho(e);
    }

    method CompileEcho(e: Exp)
      modifies this
      ensures var g := EchoCode(GenExp(old(locals), old(Counters()), e, TyOf(e)), TyOf(e)); Emitted(g.code, g.c)
      decreases e, 4
    {
      hide GenExp, GenConversion;
      var v := CompileExp(e, TyOf(e));
      if TyOf(e).Char? {
        Emit(EchoRt(CharKind, v));
      } else {
        v := CompileConversion(TyOf(e), v, Long);
        Emit(EchoRt(IntegerKind, v));
      }
    }

    method CompileIf(ret: Ty, s: Stmt, thenLabel: nat, elseLabel: nat) returns (stop: bool)
      requires s.If? || s.IfElse?
      requires elseLabel == thenLabel + 1 && nextLabel == thenLabel + 2
      modifies this
      ensures var g := GenStmt(ret, old(endLabel), old(checkLabel), old(locals), Ctr(old(nextLocalId), thenLabel), s);
              Emitted(g.code, g.c) && stop == g.stop
      decreases s, 1
    {
      hide GenCond, GenBlock, GenStmt, Exits, IfCode, IfElseCode;
      ghost var start, ls, c := out, locals, Ctr(nextLocalId, thenLabel);
      if s.If? {
        IfIs(ret, endLabel, checkLabel, ls, c, s);
      } else {
        IfElseIs(ret, endLabel, checkLabel, ls, c, s);
      }
      ghost var gc := GenCond(ls, Counters(), s.c, thenLabel, elseLabel);
      ghost var gt := GenBlock(ret, endLabel, checkLabel, ls, gc.c, s.thn);
      stop := false;
      CompileCondition(s.c, thenLabel, elseLabel);
      CompileLabelled(ret, thenLabel, s.thn, start, gc.code);
      ghost var k := gc.code + [Label(thenLabel)] + gt.code;
      if s.IfElse? {
        stop := CompileElse(ret, s, elseLabel, start, c, gc, gt);
        return;
      }
      if Exits(s.thn) {
        Emit(Label(elseLabel));
        Assoc(start, k, [Label(elseLabel)]);
        IfParts(c, gc, gt, []);
        Unit(k);
        return false;
      }
      Emit(Br(elseLabel));
      Assoc(start, k, [Br(elseLabel)]);
      Emit(Label(elseLabel));
      Assoc(start, k + [Br(elseLabel)], [Label(elseLabel)]);
      IfParts(c, gc, gt, [Br(elseLabel)]);
    }

    /** The second arm, after the code of the condition and of the first one. */
    method CompileElse(ret: Ty, s: Stmt, elseLabel: nat, ghost start: Code, ghost c: Ctr, ghost gc: CodeGen,
                       ghost gt: CodeGen) returns (stop: bool)
      requires s.IfElse? && elseLabel == c.lab + 1
      requires gt == GenBlock(ret, endLabel, checkLabel, locals, gc.c, s.thn)
      requires out == start + (gc.code + [Label(c.lab)] + gt.code) && Counters() == gt.c
      modifies this
      ensures var both := Exits(s.thn) && Exits(s.els);
              var end := gt.c.lab;
              var ge := GenBlock(ret, old(endLabel), old(checkLabel), old(locals),
                                 if both then gt.c else gt.c.(lab := end + 1), s.els);
              && out == start + (if both then IfCode(c, gc, gt, []) + ge.code
                                 else IfElseCode(c, gc, gt, ge, if Exits(s.thn) then [] else [Br(end)],
                                                 if Exits(s.els) then [] else [Br(end)],
                                                 if Exits(s.thn) || Exits(s.els) then [] else [Label(end)]))
              && Counters() == ge.c && stop == both
      ensures locals == old(locals) && endLabel == old(endLabel) && checkLabel == old(checkLabel)
      decreases s, 0
    {
      hide GenBlock, Exits, IfCode, IfElseCode;
      ghost var ls, k := locals, gc.code + [Label(c.lab)] + gt.code;
      if Exits(s.thn) {
        if Exits(s.els) {
          CompileLabelled(ret, elseLabel, s.els, start, k);
          IfParts(c, gc, gt, []);
          Unit(k);
          return true;
        }
        var el := NewLabel();
        ghost var ge := GenBlock(ret, endLabel, checkLabel, ls, gt.c.(lab := el + 1), s.els);
        CompileLabelled(ret, elseLabel, s.els, start, k);
        Emit(Br(el));
        ElsePieces(start, c, gc, gt, ge, [], [Br(el)], []);
        return false;
      }
      if Exits(s.els) {
        var el := NewLabel();
        ghost var ge := GenBlock(ret, endLabel, checkLabel, ls, gt.c.(lab := el + 1), s.els);
        Emit(Br(el));
        Assoc(start, k, [Br(el)]);
        CompileLabelled(ret, elseLabel, s.els, start, k + [Br(el)]);
        ElsePieces(start, c, gc, gt, ge, [Br(el)], [], []);
        return false;
      }
      var el := NewLabel();
      ghost var ge := GenBlock(ret, endLabel, checkLabel, ls, gt.c.(lab := el + 1), s.els);
      Emit(Br(el));
      Assoc(start, k, [Br(el)]);
      CompileLabelled(ret, elseLabel, s.els, start, k + [Br(el)]);
      Emit(Br(el));
      Emit(Label(el));
      ElsePieces(start, c, gc, gt, ge, [Br(el)], [Br(el)], [Label(el)]);
      return false;
    }

    /** A block under a label of its own; `before` is the code emitted since `start`. */
    method CompileLabelled(ret: Ty, l: nat, b: seq<Stmt>, ghost start: Code, ghost before: Code)
      requires out == start + before
      modifies this
      ensures var g := GenBlock(ret, old(endLabel), old(checkLabel), old(locals), old(Counters()), b);
              out == start + (before + [Label(l)] + g.code) && Counters() == g.c
      ensures locals == old(locals) && endLabel == old(endLabel) && checkLabel == old(checkLabel)
      decreases b, 2
    {
      hide GenBlock;
      Emit(Label(l));
      CompileBlock(ret, b);
    }

    method CompileWhile(ret: Ty, s: Stmt, el: nat)
      requires s.While? && nextLabel == el + 1
      modifies this
      ensures var g := GenStmt(ret, old(endLabel), old(checkLabel), old(locals), Ctr(old(nextLocalId), el), s);
              Emitted(g.code, g.c)
      decreases s, 1
    {
      hide GenCond, GenBlock, GenStmt, Exits, WhileCode;
      ghost var start, ls, c := out, locals, Ctr(nextLocalId, el);
      WhileIs(ret, endLabel, checkLabel, ls, c, s);
      var bodyLabel := NewLabel();
      var loopCheck := NewLabel();
      ghost var g1 := GenCond(ls, Counters(), s.c, bodyLabel, el);
      ghost var gb := GenBlock(ret, el, loopCheck, ls, g1.c, s.body);
      ghost var g2 := GenCond(ls, gb.c, s.c, bodyLabel, el);
      CompileCondition(s.c, bodyLabel, el);

      var prevEnd, prevCheck := endLabel, checkLabel;
      endLabel, checkLabel := el, loopCheck;
      CompileLabelled(ret, bodyLabel, s.body, start, g1.code);
      checkLabel, endLabel := prevCheck, prevEnd;

      ghost var br: Code := if Exits(s.body) then [] else [Br(loopCheck)];
      ghost var before := out;
      if !Exits(s.body) {
        Emit(Br(loopCheck));
      } else {
        Unit(before);
      }
      Emit(Label(loopCheck));
      CompileCondition(s.c, bodyLabel, el);
      Emit(Label(el));
      WhilePieces(start, c, g1, gb, g2, br);
    }

    method CompileBlock(ret: Ty, b: seq<Stmt>)
      modifies this
      ensures var g := GenBlock(ret, old(endLabel), old(checkLabel), old(locals), old(Counters()), b);
              Emitted(g.code, g.c)
      decreases b, 1
    {
      hide GenStmt;
      var top := |locals|;
      ghost var g := GenStmts(ret, endLabel, checkLabel, locals, Counters(), b);
      var i, stop := 0, false;
      assert b[0..] == b;
      while i < |b| && !stop
        invariant 0 <= i <= |b|
        invariant endLabel == old(endLabel) && checkLabel == old(checkLabel)
        invariant top <= |locals| && locals[..top] == old(locals)
        invariant stop ==> out == old(out) + g.code && Counters() == g.c
        invariant !stop ==> var r := GenStmts(ret, endLabel, checkLabel, locals, Counters(), b[i..]);
                            old(out) + g.code == out + r.code && g.c == r.c
      {
        ghost var before, c, ls := out, Counters(), locals;
        stop := CompileStatement(ret, b[i]);
        assert b[i..][1..] == b[i + 1..];
        ghost var s := GenStmt(ret, endLabel, checkLabel, ls, c, b[i]);
        LocalsGrow(ret, endLabel, checkLabel, ls, c, b[i]);
        ghost var r := GenStmts(ret, endLabel, checkLabel, s.ls, s.c, b[i + 1..]);
        assert before + (s.code + r.code) == before + s.code + r.code;
        i := i + 1;
      }
      while |locals| > top
        invariant top <= |locals| && locals[..top] == old(locals)
        invariant out == old(out) + g.code && Counters() == g.c
        invariant endLabel == old(endLabel) && checkLabel == old(checkLabel)
      {
        locals := locals[..|locals| - 1];
      }
    }

    /** Each parameter gets a cell; then the body. */
    method CompileFunctionImpl(f: Func)
      requires |f.params| == |f.sig.params|
      modifies this
      ensures out == old(out) + GenFunc(f, old(endLabel), old(checkLabel))
      ensures endLabel == old(endLabel) && checkLabel == old(checkLabel)
    {
      hide GenStmts, Exits;
      ResetBlockContext();
      var i := 0;
      while i < |f.params|
        invariant 0 <= i <= |f.params|
        invariant nextLocalId == i && nextLabel == 0 && locals == ParamLocals(f.params, f.sig.params, i)
        invariant out == old(out) + GenParams(f.params, f.sig.params, i)
        invariant endLabel == old(endLabel) && checkLabel == old(checkLabel)
      {
        var t := f.sig.params[i];
        var id := CompileLocal(f.params[i], t);
        Emit(Store(Width(t), Temp(id), Arg(i)));
        i := i + 1;
      }
      ghost var k1 := GenParams(f.params, f.sig.params, i);
      if f.sig.name == "main" {
        Emit(InitRt);
      }
      ghost var k2: Code := if f.sig.name == "main" then [InitRt] else [];
      assert out == old(out) + (k1 + k2);
      CompileBlock(f.sig.ret, f.body);
      if f.sig.ret.Void? && !Exits(f.body) {
        Emit(RetVoid);
      }
    }
  }

  lemma Assoc(a: Code, b: Code, c: Code)
    ensures a + b + c == a + (b + c)
  {
  }

  lemma ArmIs(start: Code, before: Code, l: nat, g: ExpGen, el: nat)
    ensures start + before + [Label(l)] + g.code + [Br(g.c.lab)] + [Label(g.c.lab)] + [Br(el)]
            == start + ArmCode(before, l, g, el)
  {
  }

  lemma PhiIs(start: Code, k: Code, i: Instr, j: Instr)
    ensures start + k + [i] + [j] == start + (k + [i, j])
  {
  }

  lemma ConditionalIs(ls: seq<Local>, c: Ctr, e: Exp)
    requires e.Conditional?
    ensures var gc := GenCond(ls, c.(lab := c.lab + 3), e.cond, c.lab, c.lab + 1);
            var ga := GenExp(ls, gc.c, e.thn, e.ety);
            var gb := GenExp(ls, ga.c.(lab := ga.c.lab + 1), e.els, e.ety);
            GenTyped(ls, c, e) == ConditionalCode(c, gc, ga, gb, Width(e.ety))
  {
    hide GenExp, GenCond;
  }

  lemma WhilePieces(start: Code, c: Ctr, g1: CodeGen, gb: CodeGen, g2: CodeGen, br: Code)
    ensures start + (g1.code + [Label(c.lab + 1)] + gb.code) + br + [Label(c.lab + 2)] + g2.code + [Label(c.lab)]
            == start + WhileCode(c, g1, gb, g2, br)
  {
  }

  lemma ElsePieces(start: Code, c: Ctr, gc: CodeGen, gt: CodeGen, ge: CodeGen, brT: Code, brE: Code, end: Code)
    ensures var k := gc.code + [Label(c.lab)] + gt.code;
            && k + [] == k
            && start + (k + brT + [Label(c.lab + 1)] + ge.code) + brE + end
               == start + IfElseCode(c, gc, gt, ge, brT, brE, end)
            && start + (k + brT + [Label(c.lab + 1)] + ge.code) + [] == start + (k + brT + [Label(c.lab + 1)] + ge.code)
            && start + (k + brT + [Label(c.lab + 1)] + ge.code) + brE + []
               == start + (k + brT + [Label(c.lab + 1)] + ge.code) + brE
  {
    hide IfCode;
    var body := gc.code + [Label(c.lab)] + gt.code + brT + [Label(c.lab + 1)] + ge.code;
    assert IfElseCode(c, gc, gt, ge, brT, brE, end) == body + brE + end by { IfParts(c, gc, gt, brT); }
    Assoc(start, body, brE);
    Assoc(start, body + brE, end);
  }

  lemma IfParts(c: Ctr, gc: CodeGen, gt: CodeGen, br: Code)
    ensures IfCode(c, gc, gt, br) == gc.code + [Label(c.lab)] + gt.code + br + [Label(c.lab + 1)]
  {
  }

  lemma Unit(a: Code)
    ensures a + [] == a
  {
  }

  lemma NoConversion(c: Ctr, t: Ty, v: Operand)
    ensures GenConversion(c, t, v, t) == ExpGen([], v, c)
  {
  }

  lemma LocalsGrow(ret: Ty, el: nat, kl: nat, ls: seq<Local>, c: Ctr, s: Stmt)
    ensures ls <= GenStmt(ret, el, kl, ls, c, s).ls
  {
    hide GenExp, GenCond, GenStmts, GenArgs, Exits;
  }
}
