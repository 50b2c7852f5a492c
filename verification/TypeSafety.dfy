/** Typed programs that have a meaning never go wrong: no run of the interpreter ends in `Wrong`. */
module TypeSafety {
  import opened Ints
  import opened Ast
  import Sem
  import opened Typing
  import opened Meaning
  import L = Lowerable
  import R = ReturnPaths
  import S = Source

  // What run-time states fit a typing context

  predicate HasType(e: Entity, t: Ty) {
    e.EVar? && e.t == t
  }

  predicate IsVar(e: Option<Entity>, t: Ty) {
    e.Some? && HasType(e.value, t)
  }

  predicate ScopeFits(es: seq<Entry>, scope: S.Scope, store: seq<S.Value>) {
    && |es| == |scope|
    && forall i :: 0 <= i < |es| ==>
         && es[i].name == scope[i].name && scope[i].loc < |store|
         && HasType(es[i].ent, store[scope[i].loc].ty)
  }

  predicate EnvFits(locals: seq<seq<Entry>>, env: S.Env, store: seq<S.Value>) {
    |locals| == |env| && forall i :: 0 <= i < |env| ==> ScopeFits(locals[i], env[i], store)
  }

  /** Every global variable that can hold a value has one of its type. */
  ghost predicate GlobFits(globals: map<string, Entity>, g: S.Glob) {
    forall x :: x in globals && globals[x].EVar? && IsValueTy(globals[x].t) ==>
      x in g.vars && g.vars[x].ty == globals[x].t
  }

  predicate Extends(store: seq<S.Value>, store': seq<S.Value>) {
    |store| <= |store'| && forall k :: 0 <= k < |store| ==> store[k].ty == store'[k].ty
  }

  /** What analysis makes sure of in a function with a body. */
  predicate FuncTyped(globals: map<string, Entity>, f: Func) {
    && |f.params| == |f.sig.params| == |f.nodes| && Distinct(f.params)
    && f.sig.name in globals && globals[f.sig.name] == EFunc(f.sig.params, f.sig.ret)
    && StmtsOk(BodyGamma(globals, f), f.sig.ret, f.body)
    && L.AllInLoops(f.body, false)
    && !f.sig.ret.Err? && (f.sig.ret.Void? || Exits(f.body))
  }

  predicate FuncOk(globals: map<string, Entity>, f: Func) {
    FuncTyped(globals, f) && MeantStmts(f.body)
  }

  predicate ProgramOk(globals: map<string, Entity>, p: Program) {
    forall x :: x in p ==> p[x].sig.name == x && FuncOk(globals, p[x])
  }

  ghost predicate Fits(gm: Gamma, p: Program, env: S.Env, store: seq<S.Value>, g: S.Glob) {
    EnvFits(gm.locals, env, store) && GlobFits(gm.globals, g) && ProgramOk(gm.globals, p) && NoErrors(gm)
  }

  // Names

  lemma {:induction false} FindFits(es: seq<Entry>, scope: S.Scope, store: seq<S.Value>, x: string)
    requires ScopeFits(es, scope, store)
    ensures FindE(es, x).Some? == S.FindIn(scope, x).Some?
    ensures FindE(es, x).Some? ==>
              var k := S.FindIn(scope, x).value; k < |store| && HasType(FindE(es, x).value, store[k].ty)
  {
    if es != [] && es[0].name != x {
      FindFits(es[1..], scope[1..], store, x);
    }
  }

  lemma {:induction false} LookupFits(gm: Gamma, env: S.Env, store: seq<S.Value>, x: string)
    requires EnvFits(gm.locals, env, store)
    ensures match S.Lookup(env, x)
            case Some(k) => k < |store| && IsVar(LookupE(gm, x), store[k].ty)
            case None => LookupE(gm, x) == LookupE(Gamma(gm.globals, []), x)
    decreases |env|
  {
    if env != [] {
      var last := |env| - 1;
      FindFits(gm.locals[last], env[last], store, x);
      LookupFits(gm.(locals := gm.locals[..last]), env[..last], store, x);
    }
  }

  lemma ReadSafe(gm: Gamma, env: S.Env, store: seq<S.Value>, g: S.Glob, x: string, t: Ty)
    requires EnvFits(gm.locals, env, store) && GlobFits(gm.globals, g)
    requires IsVar(LookupE(gm, x), t) && IsValueTy(t)
    ensures S.ReadVar(env, store, g, x).Some? && S.ReadVar(env, store, g, x).value.ty == t
  {
    LookupFits(gm, env, store, x);
  }

  lemma WriteSafe(gm: Gamma, env: S.Env, store: seq<S.Value>, g: S.Glob, x: string, v: S.Value)
    requires EnvFits(gm.locals, env, store) && GlobFits(gm.globals, g)
    requires IsVar(LookupE(gm, x), v.ty)
    ensures var w := S.WriteVar(env, store, g, x, v);
            w.Some? && Extends(store, w.value.0) && GlobFits(gm.globals, w.value.1)
  {
    LookupFits(gm, env, store, x);
  }

  lemma FitsLater(locals: seq<seq<Entry>>, env: S.Env, store: seq<S.Value>, store': seq<S.Value>)
    requires EnvFits(locals, env, store) && Extends(store, store')
    ensures EnvFits(locals, env, store')
  {
    forall i | 0 <= i < |env| ensures ScopeFits(locals[i], env[i], store') {
      assert ScopeFits(locals[i], env[i], store);
    }
  }

  lemma DeclareFits(gm: Gamma, env: S.Env, store: seq<S.Value>, x: string, tname: string, t: Ty, node: Node)
    requires EnvFits(gm.locals, env, store) && env != [] && IsValueTy(t)
    requires FindE(gm.locals[|gm.locals| - 1], x).None?
    ensures S.FindIn(env[|env| - 1], x).None?
    ensures EnvFits(After(gm, VarDef(x, tname, t, node)).locals, S.Declare(env, x, |store|), store + [S.MkValue(t, 0)])
  {
    var last := |env| - 1;
    FindFits(gm.locals[last], env[last], store, x);
    var store' := store + [S.MkValue(t, 0)];
    assert Extends(store, store');
    FitsLater(gm.locals, env, store, store');
    var env' := S.Declare(env, x, |store|);
    var locals' := After(gm, VarDef(x, tname, t, node)).locals;
    forall i | 0 <= i < |env'| ensures ScopeFits(locals'[i], env'[i], store') {
      assert ScopeFits(gm.locals[i], env[i], store');
    }
  }

  // Conversions

  lemma MeantConverts(e: Exp, to: Ty)
    requires Meant(e) && Sem.Assignable(to, TyOf(e)) && !to.Err?
    ensures S.Convertible(TyOf(e), to)
  {
  }

  lemma OperandsCompare(l: Exp, r: Exp, op: CmpOp)
    requires Meant(l) && Meant(r) && Sem.CanCompare(TyOf(l), TyOf(r), op)
    ensures S.Convertible(TyOf(r), TyOf(l)) && (IsInt(TyOf(l)) || op.Eq? || op.Ne?)
  {
  }

  // Expressions

  ghost predicate Safe(globals: map<string, Entity>, r: S.Res<S.Value>) {
    match r
    case Ok(_, g) => GlobFits(globals, g)
    case Stop(why) => !why.Wrong?
  }

  lemma {:induction false} SafeExp(fuel: nat, gm: Gamma, p: Program, env: S.Env, store: seq<S.Value>, g: S.Glob,
                                   e: Exp)
    requires Fits(gm, p, env, store, g) && ExpOk(gm, e) && Meant(e)
    ensures Safe(gm.globals, S.EvalExp(fuel, p, env, store, g, e))
    decreases fuel, 1, e, 1
  {
    hide LookupE, EnvFits, GlobFits, ProgramOk, NoErrors, S.CallFn, S.Arith, S.ReadVar, InRange;
    match e
    case IntLit(n, t) => TypedLiteralFits(gm, n, t);
    case CharLit(k) =>
    case Var(x, t, _) => ReadSafe(gm, env, store, g, x, t);
    case Unary(op, a, t) => SafeExp(fuel, gm, p, env, store, g, a);
    case Binary(op, a, b, t) =>
      MeantConverts(b, t);
      SafeAs(fuel, gm, p, env, store, g, a, t);
      var ra := S.EvalAs(fuel, p, env, store, g, a, t);
      if ra.Ok? {
        SafeAs(fuel, gm, p, env, store, ra.g, b, t);
      }
    case Cast(a, _, t) => SafeAs(fuel, gm, p, env, store, g, a, t);
    case Conditional(c, a, b, t) =>
      SafeCond(fuel, gm, p, env, store, g, c);
      var rc := S.EvalCond(fuel, p, env, store, g, c);
      if rc.Ok? {
        SafeAs(fuel, gm, p, env, store, rc.g, if rc.v then a else b, t);
      }
    case Call(sig, args) =>
      CallSeen(gm, p, env, store, sig);
      SafeArgs(fuel, gm, p, env, store, g, args, sig.params);
      var ra := S.EvalArgs(fuel, p, env, store, g, args, sig.params);
      if ra.Ok? {
        SafeCall(fuel, gm, p, sig, ra.v, ra.g);
      }
  }

  lemma {:induction false} SafeAs(fuel: nat, gm: Gamma, p: Program, env: S.Env, store: seq<S.Value>, g: S.Glob, e: Exp,
                                  t: Ty)
    requires Fits(gm, p, env, store, g) && ExpOk(gm, e) && Meant(e) && S.Convertible(TyOf(e), t)
    ensures Safe(gm.globals, S.EvalAs(fuel, p, env, store, g, e, t))
    decreases fuel, 1, e, 2
  {
    hide Fits, GlobFits, ExpOk, Meant, S.EvalExp;
    SafeExp(fuel, gm, p, env, store, g, e);
  }

  lemma {:induction false} SafeCond(fuel: nat, gm: Gamma, p: Program, env: S.Env, store: seq<S.Value>, g: S.Glob,
                                    c: Cond)
    requires Fits(gm, p, env, store, g) && CondOk(gm, c) && MeantCond(c)
    ensures match S.EvalCond(fuel, p, env, store, g, c)
            case Ok(_, g') => GlobFits(gm.globals, g')
            case Stop(why) => !why.Wrong?
    decreases fuel, 1, c, 1
  {
    hide EnvFits, GlobFits, NoErrors, ProgramOk, ExpOk, Meant, S.EvalExp;
    match c
    case BinCond(_, op, l, r) =>
      SafeCond(fuel, gm, p, env, store, g, l);
      var rl := S.EvalCond(fuel, p, env, store, g, l);
      if rl.Ok? {
        SafeCond(fuel, gm, p, env, store, rl.g, r);
      }
    case Compar(_, op, l, r) =>
      OperandsCompare(l, r, op);
      SafeExp(fuel, gm, p, env, store, g, l);
      var rl := S.EvalExp(fuel, p, env, store, g, l);
      if rl.Ok? {
        SafeAs(fuel, gm, p, env, store, rl.g, r, TyOf(l));
      }
  }

  lemma {:induction false} SafeArgs(fuel: nat, gm: Gamma, p: Program, env: S.Env, store: seq<S.Value>, g: S.Glob,
                                    es: seq<Exp>, ts: seq<Ty>)
    requires |es| == |ts| && Fits(gm, p, env, store, g) && ArgsOk(gm, es, ts) && MeantArgs(es)
    requires forall i :: 0 <= i < |ts| ==> !ts[i].Err?
    ensures match S.EvalArgs(fuel, p, env, store, g, es, ts)
            case Ok(vs, g') => GlobFits(gm.globals, g') && S.ArgsMatch(vs, ts)
            case Stop(why) => !why.Wrong?
    decreases fuel, 1, es, 1
  {
    hide EnvFits, GlobFits, NoErrors, ProgramOk, ExpOk, Meant, S.EvalExp, S.Convertible;
    if es != [] {
      MeantConverts(es[0], ts[0]);
      SafeAs(fuel, gm, p, env, store, g, es[0], ts[0]);
      var r := S.EvalAs(fuel, p, env, store, g, es[0], ts[0]);
      if r.Ok? {
        SafeArgs(fuel, gm, p, env, store, r.g, es[1..], ts[1..]);
      }
    }
  }

  /** A body sees no error type if nothing outside of it has it; nor does its signature. */
  lemma BodyKnown(globals: map<string, Entity>, f: Func)
    requires FuncTyped(globals, f) && NoErrors(Gamma(globals, []))
    ensures NoErrors(BodyGamma(globals, f))
    ensures !f.sig.ret.Err? && forall i :: 0 <= i < |f.sig.params| ==> !f.sig.params[i].Err?
  {
    hide StmtsOk, L.AllInLoops, Exits;
    assert Known(globals[f.sig.name]);
    assert KnownEntries(ParamEntries(f.params, f.sig.params, f.nodes));
  }

  lemma ParamsFit(globals: map<string, Entity>, f: Func, vals: seq<S.Value>)
    requires |f.params| == |f.sig.params| == |f.nodes| && S.ArgsMatch(vals, f.sig.params)
    ensures EnvFits(BodyGamma(globals, f).locals, [S.ParamScope(f.params)], vals)
  {
    assert ScopeFits(ParamEntries(f.params, f.sig.params, f.nodes), S.ParamScope(f.params), vals);
  }

  /** A call that leaves the module comes back with a value of the declared type, if it comes back. */
  lemma ExternFits(globals: map<string, Entity>, sig: Sig, vals: seq<S.Value>, g: S.Glob)
    requires GlobFits(globals, g) && !sig.ret.Err?
    ensures match S.CallExtern(sig, vals, g)
            case Ok(v, g') => GlobFits(globals, g') && v.None? == sig.ret.Void? && (v.Some? ==> v.value.ty == sig.ret)
            case Stop(why) => why.Trap?
  {
  }

  /** Only the global part of the context matters to a call. */
  lemma {:induction false} SafeCall(fuel: nat, gm: Gamma, p: Program, sig: Sig, vals: seq<S.Value>, g: S.Glob)
    requires GlobFits(gm.globals, g) && ProgramOk(gm.globals, p) && NoErrors(Gamma(gm.globals, []))
    requires sig.name in p ==> p[sig.name].sig == sig
    requires S.ArgsMatch(vals, sig.params) && !sig.ret.Err?
    ensures match S.CallFn(fuel, p, sig, vals, g)
            case Ok(v, g') =>
              GlobFits(gm.globals, g') && v.None? == sig.ret.Void? && (v.Some? ==> v.value.ty == sig.ret)
            case Stop(why) => !why.Wrong?
    decreases fuel, 0
  {
    hide GlobFits, EnvFits, StmtsOk, MeantStmts, L.AllInLoops, Exits, S.ExecStmts, NoErrors;
    if sig.name !in p {
      ExternFits(gm.globals, sig, vals, g);
    } else if fuel > 0 {
      var f := p[sig.name];
      assert FuncOk(gm.globals, f);
      var env := [S.ParamScope(f.params)];
      BodyKnown(gm.globals, f);
      ParamsFit(gm.globals, f, vals);
      SafeStmts(fuel - 1, BodyGamma(gm.globals, f), p, sig.ret, false, env, vals, g, f.body);
      if Exits(f.body) {
        R.ExitingBlock(fuel - 1, p, sig.ret, env, vals, g, f.body);
      }
    }
  }

  /** What a typed call says of the program it is in. */
  lemma CalleeIs(gm: Gamma, p: Program, sig: Sig)
    requires ProgramOk(gm.globals, p) && LookupE(Gamma(gm.globals, []), sig.name) == Some(EFunc(sig.params, sig.ret))
    ensures sig.name in p ==> p[sig.name].sig == sig
  {
    if sig.name in p {
      assert FuncOk(gm.globals, p[sig.name]);
    }
  }

  // Statements

  ghost predicate SafeStmtRes(gm: Gamma, gm': Gamma, ret: Ty, loop: bool, store: seq<S.Value>, r: S.StmtRes) {
    match r
    case Halt(why) => !why.Wrong?
    case Done(out, env', store', g') =>
      && Extends(store, store') && GlobFits(gm.globals, g')
      && (out.Normal? ==> EnvFits(gm'.locals, env', store'))
      && (out.Broke? || out.Continued? ==> loop)
      && (out.Returned? ==> out.v.None? == ret.Void? && (out.v.Some? ==> out.v.value.ty == ret))
  }

  lemma {:induction false} SafeStmt(fuel: nat, gm: Gamma, p: Program, ret: Ty, loop: bool, env: S.Env,
                                    store: seq<S.Value>, g: S.Glob, s: Stmt)
    requires Fits(gm, p, env, store, g) && gm.locals != []
    requires StmtOk(gm, ret, s) && L.InLoops(s, loop) && MeantStmt(s) && !ret.Err?
    ensures SafeStmtRes(gm, After(gm, s), ret, loop, store, S.ExecStmt(fuel, p, ret, env, store, g, s))
    decreases fuel, 2, s, 0
  {
    hide LookupE, EnvFits, GlobFits, ProgramOk, NoErrors, ExpOk, S.EvalExp, S.EvalCond, S.EvalArgs, S.CallFn, S.ReadVar,
      S.WriteVar, StmtsOk, MeantStmts, L.AllInLoops, S.ExecBlock, Push, CondOk, MeantCond, ArgsOk,
      MeantArgs, Extends, Meant, Sem.Reserved;
    SameStore(store);
    match s
    case VarDef(_, _, _, _) =>
      SafeVarDef(fuel, gm, p, ret, loop, env, store, g, s);
    case Assign(_, _, _, _) =>
      SafeAssign(fuel, gm, p, ret, loop, env, store, g, s);
    case If(c, t) =>
      SafeCond(fuel, gm, p, env, store, g, c);
      var r := S.EvalCond(fuel, p, env, store, g, c);
      if r.Ok? && r.v {
        SafeBlock(fuel, gm, p, ret, loop, env, store, r.g, t);
      }
    case IfElse(c, t, e) =>
      SafeCond(fuel, gm, p, env, store, g, c);
      var r := S.EvalCond(fuel, p, env, store, g, c);
      if r.Ok? {
        SafeBlock(fuel, gm, p, ret, loop, env, store, r.g, if r.v then t else e);
      }
    case While(c, b) => SafeWhile(fuel, gm, p, ret, loop, env, store, g, s);
    case Break =>
    case Continue =>
    case Return =>
    case ReturnValue(e) =>
      MeantConverts(e, ret);
      SafeAs(fuel, gm, p, env, store, g, e, ret);
    case CallStmt(sig, args) =>
      CallSeen(gm, p, env, store, sig);
      SafeArgs(fuel, gm, p, env, store, g, args, sig.params);
      var ra := S.EvalArgs(fuel, p, env, store, g, args, sig.params);
      if ra.Ok? {
        SafeCall(fuel, gm, p, sig, ra.v, ra.g);
      }
    case Block(b) => SafeBlock(fuel, gm, p, ret, loop, env, store, g, b);
    case Echo(e) =>
      SafeExp(fuel, gm, p, env, store, g, e);
      var r := S.EvalExp(fuel, p, env, store, g, e);
      if r.Ok? {
        EchoFits(gm.globals, r.g, r.v);
      }
  }

  lemma SafeVarDef(fuel: nat, gm: Gamma, p: Program, ret: Ty, loop: bool, env: S.Env, store: seq<S.Value>, g: S.Glob,
                   s: Stmt)
    requires s.VarDef? && Fits(gm, p, env, store, g) && gm.locals != []
    requires StmtOk(gm, ret, s) && MeantStmt(s)
    ensures SafeStmtRes(gm, After(gm, s), ret, loop, store, S.ExecStmt(fuel, p, ret, env, store, g, s))
  {
    hide EnvFits, GlobFits, NoErrors, ProgramOk;
    EnvLength(gm.locals, env, store);
    DeclareFits(gm, env, store, s.x, s.tname, s.t, s.node);
  }

  lemma {:induction false} SafeAssign(fuel: nat, gm: Gamma, p: Program, ret: Ty, loop: bool, env: S.Env,
                                      store: seq<S.Value>, g: S.Glob, s: Stmt)
    requires s.Assign? && Fits(gm, p, env, store, g) && gm.locals != []
    requires StmtOk(gm, ret, s) && MeantStmt(s)
    ensures SafeStmtRes(gm, gm, ret, loop, store, S.ExecStmt(fuel, p, ret, env, store, g, s))
    decreases fuel, 2, s.e, 3
  {
    hide LookupE, EnvFits, GlobFits, ProgramOk, NoErrors, ExpOk, Meant, S.EvalExp, S.WriteVar, Extends;
    LookupKnown(gm, s.x);
    MeantConverts(s.e, s.t);
    SafeAs(fuel, gm, p, env, store, g, s.e, s.t);
    var r := S.EvalAs(fuel, p, env, store, g, s.e, s.t);
    if r.Ok? {
      WriteSafe(gm, env, store, r.g, s.x, r.v);
      var w := S.WriteVar(env, store, r.g, s.x, r.v);
      FitsLater(gm.locals, env, store, w.value.0);
    }
  }

  lemma EnvLength(locals: seq<seq<Entry>>, env: S.Env, store: seq<S.Value>)
    requires EnvFits(locals, env, store)
    ensures |env| == |locals|
  {
  }

  lemma EchoFits(globals: map<string, Entity>, g: S.Glob, v: S.Value)
    requires GlobFits(globals, g)
    ensures GlobFits(globals, g.(events := g.events + [S.EchoOf(v)]))
  {
  }

  /** A name that stands for a function is not hidden by a local. */
  lemma CallSeen(gm: Gamma, p: Program, env: S.Env, store: seq<S.Value>, sig: Sig)
    requires EnvFits(gm.locals, env, store) && ProgramOk(gm.globals, p) && NoErrors(gm)
    requires LookupE(gm, sig.name) == Some(EFunc(sig.params, sig.ret))
    ensures sig.name in p ==> p[sig.name].sig == sig
    ensures !sig.ret.Err? && (forall i :: 0 <= i < |sig.params| ==> !sig.params[i].Err?)
    ensures NoErrors(Gamma(gm.globals, []))
  {
    hide ProgramOk, EnvFits;
    LookupFits(gm, env, store, sig.name);
    CalleeIs(gm, p, sig);
    LookupKnown(gm, sig.name);
  }

  lemma {:induction false} SafeWhile(fuel: nat, gm: Gamma, p: Program, ret: Ty, loop: bool, env: S.Env,
                                     store: seq<S.Value>, g: S.Glob, s: Stmt)
    requires s.While? && Fits(gm, p, env, store, g) && gm.locals != []
    requires StmtOk(gm, ret, s) && L.InLoops(s, loop) && MeantStmt(s) && !ret.Err?
    ensures SafeStmtRes(gm, gm, ret, loop, store, S.ExecStmt(fuel, p, ret, env, store, g, s))
    decreases fuel, 2, s.body, 3
  {
    hide EnvFits, GlobFits, NoErrors, ProgramOk, S.EvalCond, StmtsOk, MeantStmts, L.AllInLoops, S.ExecBlock, Push,
      CondOk, MeantCond, S.ExecStmt, Extends;
    S.RunsWhile(fuel, p, ret, env, store, g, s);
    if fuel > 0 {
      SafeCond(fuel, gm, p, env, store, g, s.c);
      var r := S.EvalCond(fuel, p, env, store, g, s.c);
      SameStore(store);
      if r.Ok? && r.v {
        SafeBlock(fuel, gm, p, ret, true, env, store, r.g, s.body);
        var b := S.ExecBlock(fuel, p, ret, env, store, r.g, s.body);
        if b.Done? {
          FitsLater(gm.locals, env, store, b.store);
          if b.out.Normal? || b.out.Continued? {
            SafeStmt(fuel - 1, gm, p, ret, loop, env, b.store, b.g, s);
            var again := S.ExecStmt(fuel - 1, p, ret, env, b.store, b.g, s);
            if again.Done? {
              ExtendsFurther(store, b.store, again.store);
            }
          }
        }
      }
    }
  }

  lemma SameStore(store: seq<S.Value>)
    ensures Extends(store, store)
  {
  }

  lemma ExtendsFurther(a: seq<S.Value>, b: seq<S.Value>, c: seq<S.Value>)
    requires Extends(a, b) && Extends(b, c)
    ensures Extends(a, c)
  {
  }

  lemma {:induction false} SafeBlock(fuel: nat, gm: Gamma, p: Program, ret: Ty, loop: bool, env: S.Env,
                                     store: seq<S.Value>, g: S.Glob, b: seq<Stmt>)
    requires Fits(gm, p, env, store, g)
    requires StmtsOk(Push(gm), ret, b) && L.AllInLoops(b, loop) && MeantStmts(b) && !ret.Err?
    ensures SafeStmtRes(gm, gm, ret, loop, store, S.ExecBlock(fuel, p, ret, env, store, g, b))
    ensures var r := S.ExecBlock(fuel, p, ret, env, store, g, b); r.Done? ==> r.env == env
    decreases fuel, 2, b, 1
  {
    hide GlobFits, NoErrors, ProgramOk, StmtsOk, MeantStmts, L.AllInLoops, S.ExecStmts;
    PushKnown(gm);
    assert EnvFits(Push(gm).locals, env + [[]], store) by {
      forall i | 0 <= i < |env + [[]]| ensures ScopeFits(Push(gm).locals[i], (env + [[]])[i], store) {
        if i < |env| {
          assert ScopeFits(gm.locals[i], env[i], store);
        }
      }
    }
    SafeStmts(fuel, Push(gm), p, ret, loop, env + [[]], store, g, b);
    var r := S.ExecStmts(fuel, p, ret, env + [[]], store, g, b);
    if r.Done? {
      FitsLater(gm.locals, env, store, r.store);
    }
  }

  function AfterAll(gm: Gamma, ss: seq<Stmt>): Gamma
    requires gm.locals != []
    decreases |ss|
  {
    if ss == [] then gm else AfterAll(After(gm, ss[0]), ss[1..])
  }

  lemma {:induction false} SafeStmts(fuel: nat, gm: Gamma, p: Program, ret: Ty, loop: bool, env: S.Env,
                                     store: seq<S.Value>, g: S.Glob, ss: seq<Stmt>)
    requires Fits(gm, p, env, store, g) && gm.locals != []
    requires StmtsOk(gm, ret, ss) && L.AllInLoops(ss, loop) && MeantStmts(ss) && !ret.Err?
    ensures SafeStmtRes(gm, AfterAll(gm, ss), ret, loop, store, S.ExecStmts(fuel, p, ret, env, store, g, ss))
    decreases fuel, 2, ss, 0
  {
    hide EnvFits, GlobFits, NoErrors, ProgramOk, StmtOk, MeantStmt, L.InLoops, S.ExecStmt, StmtExits, After,
      S.ExecStmts, StmtsOk;
    if ss == [] {
      NoStmts(fuel, p, ret, env, store, g);
    } else {
      FirstStmt(fuel, p, ret, env, store, g, ss);
      FirstOk(gm, ret, ss);
      SafeStmt(fuel, gm, p, ret, loop, env, store, g, ss[0]);
      var r := S.ExecStmt(fuel, p, ret, env, store, g, ss[0]);
      if r.Done? && r.out.Normal? {
        if StmtExits(ss[0]) {
          R.ExitingStmt(fuel, p, ret, env, store, g, ss[0]);
        } else {
          AfterGlobals(gm, ss[0]);
          AfterKnown(gm, ret, ss[0]);
          SafeStmts(fuel, After(gm, ss[0]), p, ret, loop, r.env, r.store, r.g, ss[1..]);
        }
      }
    }
  }

  lemma NoStmts(fuel: nat, p: Program, ret: Ty, env: S.Env, store: seq<S.Value>, g: S.Glob)
    ensures S.ExecStmts(fuel, p, ret, env, store, g, []) == S.Done(S.Normal, env, store, g)
  {
  }

  lemma FirstStmt(fuel: nat, p: Program, ret: Ty, env: S.Env, store: seq<S.Value>, g: S.Glob, ss: seq<Stmt>)
    requires ss != []
    ensures var r := S.ExecStmt(fuel, p, ret, env, store, g, ss[0]);
            S.ExecStmts(fuel, p, ret, env, store, g, ss)
            == if r.Done? && r.out.Normal? then S.ExecStmts(fuel, p, ret, r.env, r.store, r.g, ss[1..]) else r
  {
    hide S.ExecStmt;
  }

  lemma FirstOk(gm: Gamma, ret: Ty, ss: seq<Stmt>)
    requires gm.locals != [] && ss != [] && StmtsOk(gm, ret, ss)
    ensures StmtOk(gm, ret, ss[0]) && StmtsOk(After(gm, ss[0]), ret, ss[1..])
  {
    hide StmtOk, After;
  }

  lemma AfterGlobals(gm: Gamma, s: Stmt)
    requires gm.locals != []
    ensures After(gm, s).globals == gm.globals
  {
  }
}
