/** How bodies end: a block marked as exiting on all paths is never left at its end, a jump stays inside its loop, and
    a return gives what the function promises. */
module ReturnPaths {
  import opened Ast
  import opened Typing
  import L = Lowerable
  import S = Source

  lemma {:induction false} ExitingBlock(fuel: nat, p: Program, ret: Ty, env: S.Env, store: seq<S.Value>, g: S.Glob,
                                        ss: seq<Stmt>)
    requires Exits(ss)
    ensures var r := S.ExecStmts(fuel, p, ret, env, store, g, ss); r.Halt? || !r.out.Normal?
    decreases ss, 0
  {
    if StmtExits(ss[0]) {
      ExitingStmt(fuel, p, ret, env, store, g, ss[0]);
    } else {
      var r := S.ExecStmt(fuel, p, ret, env, store, g, ss[0]);
      if r.Done? && r.out.Normal? {
        ExitingBlock(fuel, p, ret, r.env, r.store, r.g, ss[1..]);
      }
    }
  }

  lemma {:induction false} ExitingStmt(fuel: nat, p: Program, ret: Ty, env: S.Env, store: seq<S.Value>, g: S.Glob,
                                       s: Stmt)
    requires StmtExits(s)
    ensures var r := S.ExecStmt(fuel, p, ret, env, store, g, s); r.Halt? || !r.out.Normal?
    decreases s, 0
  {
    match s
    case Block(b) => ExitingBlock(fuel, p, ret, env + [[]], store, g, b);
    case IfElse(c, t, e) =>
      var r := S.EvalCond(fuel, p, env, store, g, c);
      if r.Ok? {
        ExitingBlock(fuel, p, ret, env + [[]], store, r.g, if r.v then t else e);
      }
    case _ =>
  }

  /** Break and continue only with a loop around them, and return with a value of type `ret`, or with none if that is
      void. */
  predicate JumpsWell(r: S.StmtRes, ret: Ty, loop: bool) {
    r.Done? ==>
      && (r.out.Broke? || r.out.Continued? ==> loop)
      && (r.out.Returned? ==> r.out.v.None? == ret.Void? && (r.out.v.Some? ==> r.out.v.value.ty == ret))
  }

  lemma {:induction false} BlockJumps(fuel: nat, gm: Gamma, p: Program, ret: Ty, loop: bool, env: S.Env,
                                      store: seq<S.Value>, g: S.Glob, ss: seq<Stmt>)
    requires gm.locals != [] && StmtsOk(gm, ret, ss) && L.AllInLoops(ss, loop)
    ensures JumpsWell(S.ExecStmts(fuel, p, ret, env, store, g, ss), ret, loop)
    decreases fuel, ss, 0
  {
    hide StmtOk, After, L.InLoops, S.ExecStmt;
    if ss != [] {
      StmtJumps(fuel, gm, p, ret, loop, env, store, g, ss[0]);
      var r := S.ExecStmt(fuel, p, ret, env, store, g, ss[0]);
      if r.Done? && r.out.Normal? {
        BlockJumps(fuel, After(gm, ss[0]), p, ret, loop, r.env, r.store, r.g, ss[1..]);
      }
    }
  }

  lemma {:induction false} InnerJumps(fuel: nat, gm: Gamma, p: Program, ret: Ty, loop: bool, env: S.Env,
                                      store: seq<S.Value>, g: S.Glob, b: seq<Stmt>)
    requires StmtsOk(Push(gm), ret, b) && L.AllInLoops(b, loop)
    ensures JumpsWell(S.ExecBlock(fuel, p, ret, env, store, g, b), ret, loop)
    decreases fuel, b, 1
  {
    hide StmtsOk, L.AllInLoops, S.ExecStmts;
    BlockJumps(fuel, Push(gm), p, ret, loop, env + [[]], store, g, b);
  }

  lemma {:induction false} StmtJumps(fuel: nat, gm: Gamma, p: Program, ret: Ty, loop: bool, env: S.Env,
                                     store: seq<S.Value>, g: S.Glob, s: Stmt)
    requires gm.locals != [] && StmtOk(gm, ret, s) && L.InLoops(s, loop)
    ensures JumpsWell(S.ExecStmt(fuel, p, ret, env, store, g, s), ret, loop)
    decreases fuel, s, 1
  {
    hide ExpOk, CondOk, CallOk, LookupE, StmtsOk, L.AllInLoops, Push, S.EvalExp, S.EvalCond, S.EvalArgs, S.CallFn,
      S.ExecBlock, S.WriteVar;
    match s
    case If(c, t) =>
      var r := S.EvalCond(fuel, p, env, store, g, c);
      if r.Ok? && r.v {
        InnerJumps(fuel, gm, p, ret, loop, env, store, r.g, t);
      }
    case IfElse(c, t, e) =>
      var r := S.EvalCond(fuel, p, env, store, g, c);
      if r.Ok? {
        InnerJumps(fuel, gm, p, ret, loop, env, store, r.g, if r.v then t else e);
      }
    case While(_, _) => WhileJumps(fuel, gm, p, ret, loop, env, store, g, s);
    case Block(b) => InnerJumps(fuel, gm, p, ret, loop, env, store, g, b);
    case ReturnValue(e) =>
      var r := S.EvalAs(fuel, p, env, store, g, e, ret);
      if r.Ok? {
        var v: S.Value := r.v;
        assert IsValueTy(v.ty);
      }
    case _ =>
  }

  lemma {:induction false} WhileJumps(fuel: nat, gm: Gamma, p: Program, ret: Ty, loop: bool, env: S.Env,
                                      store: seq<S.Value>, g: S.Glob, s: Stmt)
    requires s.While? && gm.locals != [] && StmtOk(gm, ret, s) && L.InLoops(s, loop)
    ensures JumpsWell(S.ExecStmt(fuel, p, ret, env, store, g, s), ret, loop)
    decreases fuel, s, 0
  {
    hide CondOk, StmtsOk, L.AllInLoops, Push, S.EvalCond, S.ExecBlock, S.ExecStmt;
    S.RunsWhile(fuel, p, ret, env, store, g, s);
    var r := S.EvalCond(fuel, p, env, store, g, s.c);
    if fuel > 0 && r.Ok? && r.v {
      InnerJumps(fuel, gm, p, ret, true, env, store, r.g, s.body);
      var b := S.ExecBlock(fuel, p, ret, env, store, r.g, s.body);
      if b.Done? && (b.out.Normal? || b.out.Continued?) {
        WhileJumps(fuel - 1, gm, p, ret, loop, env, b.store, b.g, s);
      }
    }
  }

  /** A typed body that ends has returned a value of its type, or is void and has none. */
  lemma BodyReturns(fuel: nat, gm: Gamma, p: Program, ret: Ty, env: S.Env, store: seq<S.Value>, g: S.Glob,
                    body: seq<Stmt>)
    requires gm.locals != [] && StmtsOk(gm, ret, body) && L.AllInLoops(body, false) && (ret.Void? || Exits(body))
    ensures ReturnsAs(S.ExecStmts(fuel, p, ret, env, store, g, body), ret)
  {
    hide StmtsOk, L.AllInLoops, Exits, S.ExecStmts;
    BlockJumps(fuel, gm, p, ret, false, env, store, g, body);
    if Exits(body) {
      ExitingBlock(fuel, p, ret, env, store, g, body);
    }
  }

  /** The end of a run of a body, if it does not stop before. */
  predicate ReturnsAs(r: S.StmtRes, ret: Ty) {
    r.Done? ==>
      if ret.Void? then r.out.Normal? || r.out == S.Returned(None)
      else r.out.Returned? && r.out.v.Some? && r.out.v.value.ty == ret
  }
}
