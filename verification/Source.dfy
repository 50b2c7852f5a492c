/** What a Monga program means: an interpreter over lexical scopes, with echo events as its output. */
module Source {
  import opened Ints
  import opened Ast

  datatype Scalar = Val(ty: Ty, n: int)

  type Value = v: Scalar | IsValueTy(v.ty) && InRange(Width(v.ty), v.n)
    witness Val(Byte, 0)

  datatype Event = EchoInteger(n: int) | EchoChar(c: int) | ExternCall(name: string, args: seq<int>)

  /** What calls share: the global variables, the events so far, and the answers that functions of other modules will
      give. */
  datatype Glob = Glob(vars: map<string, Value>, events: seq<Event>, answers: seq<int>)

  /** Why a run ends early.
      `Trap` is undefined behaviour of the source program, such as a division by zero, or a call to another
      module that never returns;
      `Wrong` is something that has no meaning: a broken typing rule, which analysis excludes, or the use of a void
      value and the cast of an integer to char, which it does not. */
  datatype Why = Trap(events: seq<Event>) | Wrong | Timeout

  datatype Res<+T> = Ok(v: T, g: Glob) | Stop(why: Why)

  datatype Outcome = Normal | Broke | Continued | Returned(v: Option<Value>)

  datatype StmtRes =
    | Done(out: Outcome, env: Env, store: seq<Value>, g: Glob)
    | Halt(why: Why)

  // Environments: a chain of scopes, innermost last, each a list of bindings in order of declaration

  datatype Binding = Binding(name: string, loc: nat)
  type Scope = seq<Binding>
  type Env = seq<Scope>

  function FindIn(s: Scope, x: string): Option<nat> {
    if s == [] then None
    else if s[0].name == x then Some(s[0].loc)
    else FindIn(s[1..], x)
  }

  function Lookup(env: Env, x: string): Option<nat> {
    if env == [] then None
    else
      var last := |env| - 1;
      match FindIn(env[last], x)
      case Some(k) => Some(k)
      case None => Lookup(env[..last], x)
  }

  function Declare(env: Env, x: string, k: nat): Env
    requires env != []
  {
    env[|env| - 1 := env[|env| - 1] + [Binding(x, k)]]
  }

  function ParamScope(params: seq<string>): Scope {
    seq(|params|, i requires 0 <= i < |params| => Binding(params[i], i))
  }

  // Arithmetic

  /** Integer conversions keep the low bits; a char becomes an integer as a byte does. */
  predicate Convertible(from: Ty, to: Ty) {
    IsValueTy(from) && (from == to || (IsInt(to) && (IsInt(from) || from.Char?)))
  }

  function MkValue(t: Ty, n: int): Value
    requires IsValueTy(t)
  {
    WrapInRange(Width(t), n);
    Val(t, Wrap(Width(t), n))
  }

  function Convert(v: Value, to: Ty): (r: Option<Value>)
    ensures r.Some? ==> r.value.ty == to
  {
    if Convertible(v.ty, to) then Some(MkValue(to, v.n)) else None
  }

  /** Division that drops the fraction, as in C. */
  function Quot(a: int, b: int): int
    requires b != 0
  {
    var q := Abs(a) / Abs(b);
    if (a < 0) == (b < 0) then q else -q
  }

  function Rem(a: int, b: int): int
    requires b != 0
  {
    a - b * Quot(a, b)
  }

  /** The number an operation stands for before it is wrapped to `w` bits; none if it is undefined. */
  function Arith(op: BinOp, w: nat, a: int, b: int): Option<int> {
    match op
    case Add => Some(a + b)
    case Sub => Some(a - b)
    case Mul => Some(a * b)
    case Div => if b == 0 || (w > 0 && a == -(Pow2(w - 1) as int) && b == -1) then None else Some(Quot(a, b))
    case Mod => if b == 0 || (w > 0 && a == -(Pow2(w - 1) as int) && b == -1) then None else Some(Rem(a, b))
    case Shl => if 0 <= b < w then Some(a * Pow2(b)) else None
    case Shr => if 0 <= b < w then Some(ToBits(w, a) / Pow2(b)) else None
    case BitAnd => Some(BitwiseInt(AndFn, a, b))
    case BitOr => Some(BitwiseInt(OrFn, a, b))
    case Xor => Some(BitwiseInt(XorFn, a, b))
  }

  predicate Compare(op: CmpOp, a: int, b: int) {
    match op
    case Gt => a > b
    case Ge => a >= b
    case Eq => a == b
    case Ne => a != b
    case Le => a <= b
    case Lt => a < b
  }

  // What division and comparison compute, said without them

  /** Division drops the fraction: the remainder is smaller than the divisor and has the sign of the dividend. */
  predicate IsQuotient(a: int, b: int, q: int, r: int) {
    a == b * q + r && Abs(r) < Abs(b) && (r > 0 ==> a > 0) && (r < 0 ==> a < 0)
  }

  lemma QuotTruncates(a: int, b: int)
    requires b != 0
    ensures IsQuotient(a, b, Quot(a, b), Rem(a, b))
    ensures Abs(b * Quot(a, b)) <= Abs(a) < Abs(b * Quot(a, b)) + Abs(b)
  {
    var q := Parts(Abs(a), Abs(b));
    SignedProduct(b, Quot(a, b));
  }

  lemma Parts(m: nat, n: nat) returns (q: nat)
    requires n > 0
    ensures q == m / n && n * q <= m < n * q + n
  {
    q := m / n;
  }

  lemma SignedProduct(b: int, k: int)
    ensures Abs(b * k) == Abs(b) * Abs(k)
    ensures (b < 0) == (k < 0) ==> b * k >= 0
    ensures (b < 0) != (k < 0) ==> b * k <= 0
  {
    assert (-b) * k == -(b * k) && b * (-k) == -(b * k) && (-b) * (-k) == b * k;
  }

  /** Only one pair of numbers is a quotient with its remainder. */
  lemma QuotUnique(a: int, b: int, q: int, r: int)
    requires b != 0 && IsQuotient(a, b, q, r)
    ensures q == Quot(a, b) && r == Rem(a, b)
  {
    QuotTruncates(a, b);
    Closer(a, b, q, r, Quot(a, b), Rem(a, b));
  }

  lemma Closer(a: int, b: int, q: int, r: int, q': int, r': int)
    requires IsQuotient(a, b, q, r) && IsQuotient(a, b, q', r')
    ensures q == q' && r == r'
  {
    Distributed(b, q, q');
    Remainders(a, b * q, r, b * q', r', Abs(b));
    SmallMultiple(b, q - q');
  }

  lemma Remainders(a: int, x: int, r: int, y: int, r': int, m: nat)
    requires a == x + r == y + r' && Abs(r) < m && Abs(r') < m
    requires (r > 0 || r' > 0 ==> a > 0) && (r < 0 || r' < 0 ==> a < 0)
    ensures Abs(x - y) < m
  {
  }

  lemma SmallMultiple(b: int, k: int)
    requires Abs(b * k) < Abs(b)
    ensures k == 0
  {
    SignedProduct(b, k);
    if k != 0 {
      MulAtLeast(Abs(k), Abs(b));
    }
  }

  lemma Distributed(b: int, q: int, q': int)
    ensures b * (q - q') == b * q - b * q'
  {
  }

  /** Of two numbers one is the smaller, or they are equal; the other comparisons follow. */
  lemma CompareMeans(a: int, b: int)
    ensures Compare(Lt, a, b) <==> b - a > 0
    ensures Compare(Gt, a, b) <==> a - b > 0
    ensures Compare(Eq, a, b) <==> !Compare(Lt, a, b) && !Compare(Gt, a, b)
    ensures Compare(Ne, a, b) <==> !Compare(Eq, a, b)
    ensures Compare(Le, a, b) <==> !Compare(Gt, a, b)
    ensures Compare(Ge, a, b) <==> !Compare(Lt, a, b)
  {
  }

  // Expressions

  function ReadVar(env: Env, store: seq<Value>, g: Glob, x: string): Option<Value> {
    match Lookup(env, x)
    case Some(k) => if k < |store| then Some(store[k]) else None
    case None => if x in g.vars then Some(g.vars[x]) else None
  }

  function EvalExp(fuel: nat, p: Program, env: Env, store: seq<Value>, g: Glob, e: Exp): (r: Res<Value>)
    ensures r.Ok? ==> r.v.ty == TyOf(e)
    decreases fuel, 1, e, 1
  {
    match e
    case IntLit(n, t) =>
      if IsInt(t) && InRange(Width(t), n) then Ok(Val(t, n), g) else Stop(Wrong)
    case CharLit(k) =>
      if InRange(8, k) then Ok(Val(Char, k), g) else Stop(Wrong)
    case Var(x, t, _) =>
      var v := ReadVar(env, store, g, x);
      if v.Some? && v.value.ty == t then Ok(v.value, g) else Stop(Wrong)
    case Unary(op, a, t) =>
      var r := EvalExp(fuel, p, env, store, g, a);
      if r.Stop? then Stop(r.why)
      else if r.v.ty != t || !IsInt(t) then Stop(Wrong)
      else Ok(MkValue(t, if op.Negative? then -r.v.n else -r.v.n - 1), r.g)
    case Binary(op, a, b, t) =>
      var ra := EvalAs(fuel, p, env, store, g, a, t);
      if ra.Stop? then Stop(ra.why) else
      var rb := EvalAs(fuel, p, env, store, ra.g, b, t);
      if rb.Stop? then Stop(rb.why)
      else if !IsInt(t) then Stop(Wrong)
      else
        var n := Arith(op, Width(t), ra.v.n, rb.v.n);
        if n.None? then Stop(Trap(rb.g.events)) else Ok(MkValue(t, n.value), rb.g)
    case Cast(a, _, t) =>
      EvalAs(fuel, p, env, store, g, a, t)
    case Conditional(c, a, b, t) =>
      var rc := EvalCond(fuel, p, env, store, g, c);
      if rc.Stop? then Stop(rc.why)
      else EvalAs(fuel, p, env, store, rc.g, if rc.v then a else b, t)
    case Call(sig, args) =>
      var ra := EvalArgs(fuel, p, env, store, g, args, sig.params);
      if ra.Stop? then Stop(ra.why) else
      var r := CallFn(fuel, p, sig, ra.v, ra.g);
      if r.Stop? then Stop(r.why)
      else if r.v.Some? && r.v.value.ty == sig.ret then Ok(r.v.value, r.g)
      else Stop(Wrong)
  }

  /** The value of `e` converted to type `t`. */
  function EvalAs(fuel: nat, p: Program, env: Env, store: seq<Value>, g: Glob, e: Exp, t: Ty): (r: Res<Value>)
    ensures r.Ok? ==> r.v.ty == t
    decreases fuel, 1, e, 2
  {
    var r := EvalExp(fuel, p, env, store, g, e);
    if r.Stop? then Stop(r.why) else
    var v := Convert(r.v, t);
    if v.None? then Stop(Wrong) else Ok(v.value, r.g)
  }

  /** And, or and comparison; the right operand of a comparison takes the type of the left one. */
  function EvalCond(fuel: nat, p: Program, env: Env, store: seq<Value>, g: Glob, c: Cond): Res<bool>
    decreases fuel, 1, c, 1
  {
    match c
    case BinCond(neg, op, l, r) =>
      var rl := EvalCond(fuel, p, env, store, g, l);
      if rl.Stop? then Stop(rl.why)
      else if rl.v == op.Or? then Ok(op.Or? != neg, rl.g)
      else
        var rr := EvalCond(fuel, p, env, store, rl.g, r);
        if rr.Stop? then Stop(rr.why) else Ok(rr.v != neg, rr.g)
    case Compar(neg, op, l, r) =>
      var rl := EvalExp(fuel, p, env, store, g, l);
      if rl.Stop? then Stop(rl.why) else
      var rr := EvalAs(fuel, p, env, store, rl.g, r, TyOf(l));
      if rr.Stop? then Stop(rr.why)
      else if !IsInt(TyOf(l)) && !op.Eq? && !op.Ne? then Stop(Wrong)
      else Ok(Compare(op, rl.v.n, rr.v.n) != neg, rr.g)
  }

  function EvalArgs(fuel: nat, p: Program, env: Env, store: seq<Value>, g: Glob, es: seq<Exp>, ts: seq<Ty>)
    : (r: Res<seq<Value>>)
    decreases fuel, 1, es, 1
  {
    if es == [] then
      if ts == [] then Ok([], g) else Stop(Wrong)
    else if ts == [] then Stop(Wrong)
    else
      var r := EvalAs(fuel, p, env, store, g, es[0], ts[0]);
      if r.Stop? then Stop(r.why) else
      var rs := EvalArgs(fuel, p, env, store, r.g, es[1..], ts[1..]);
      if rs.Stop? then rs else Ok([r.v] + rs.v, rs.g)
  }

  predicate ArgsMatch(vals: seq<Value>, ts: seq<Ty>) {
    |vals| == |ts| && forall i :: 0 <= i < |vals| ==> vals[i].ty == ts[i]
  }

  function Numbers(vals: seq<Value>): seq<int> {
    seq(|vals|, i requires 0 <= i < |vals| => vals[i].n)
  }

  /** A call of a function of another module is an event, and the next answer is its result; when no answer is left
      the call never returns. */
  function CallExtern(sig: Sig, vals: seq<Value>, g: Glob): Res<Option<Value>> {
    var events := g.events + [ExternCall(sig.name, Numbers(vals))];
    if g.answers == [] then Stop(Trap(events))
    else
      var g' := g.(events := events, answers := g.answers[1..]);
      if sig.ret.Void? then Ok(None, g')
      else if IsValueTy(sig.ret) then Ok(Some(MkValue(sig.ret, g.answers[0])), g')
      else Stop(Wrong)
  }

  /** A call of a function of the program or of another module. */
  function CallFn(fuel: nat, p: Program, sig: Sig, vals: seq<Value>, g: Glob): (r: Res<Option<Value>>)
    decreases fuel, 0
  {
    if fuel == 0 then Stop(Timeout)
    else if sig.name !in p then CallExtern(sig, vals, g)
    else
      var f := p[sig.name];
      if f.sig != sig || |f.params| != |vals| || !Distinct(f.params) || !ArgsMatch(vals, sig.params) then Stop(Wrong)
      else
        var r := ExecStmts(fuel - 1, p, sig.ret, [ParamScope(f.params)], vals, g, f.body);
        if r.Halt? then Stop(r.why)
        else if r.out.Returned? && (r.out.v.None? == sig.ret.Void?) then Ok(r.out.v, r.g)
        else if r.out.Normal? && sig.ret.Void? then Ok(None, r.g)
        else Stop(Wrong)
  }

  // Statements

  function WriteVar(env: Env, store: seq<Value>, g: Glob, x: string, v: Value): Option<(seq<Value>, Glob)> {
    match Lookup(env, x)
    case Some(k) =>
      if k < |store| && store[k].ty == v.ty then Some((store[k := v], g)) else None
    case None =>
      if x in g.vars && g.vars[x].ty == v.ty then Some((store, g.(vars := g.vars[x := v]))) else None
  }

  function EchoOf(v: Value): Event {
    if v.ty.Char? then EchoChar(v.n) else EchoInteger(v.n)
  }

  function ExecStmt(fuel: nat, p: Program, ret: Ty, env: Env, store: seq<Value>, g: Glob, s: Stmt): (r: StmtRes)
    ensures r.Done? ==> |store| <= |r.store|
    decreases fuel, 2, s, 0
  {
    match s
    case VarDef(x, _, t, _) =>
      if env == [] || !IsValueTy(t) || FindIn(env[|env| - 1], x).Some? then Halt(Wrong)
      else Done(Normal, Declare(env, x, |store|), store + [MkValue(t, 0)], g)
    case Assign(x, t, _, e) =>
      var r := EvalAs(fuel, p, env, store, g, e, t);
      if r.Stop? then Halt(r.why) else
      var w := WriteVar(env, store, r.g, x, r.v);
      if w.None? then Halt(Wrong) else Done(Normal, env, w.value.0, w.value.1)
    case If(c, t) =>
      var r := EvalCond(fuel, p, env, store, g, c);
      if r.Stop? then Halt(r.why)
      else if r.v then ExecBlock(fuel, p, ret, env, store, r.g, t)
      else Done(Normal, env, store, r.g)
    case IfElse(c, t, e) =>
      var r := EvalCond(fuel, p, env, store, g, c);
      if r.Stop? then Halt(r.why)
      else ExecBlock(fuel, p, ret, env, store, r.g, if r.v then t else e)
    case While(c, body) =>
      if fuel == 0 then Halt(Timeout) else
      var r := EvalCond(fuel, p, env, store, g, c);
      if r.Stop? then Halt(r.why)
      else if !r.v then Done(Normal, env, store, r.g)
      else
        var b := ExecBlock(fuel, p, ret, env, store, r.g, body);
        if b.Halt? || b.out.Returned? then b
        else if b.out.Broke? then b.(out := Normal)
        else ExecStmt(fuel - 1, p, ret, env, b.store, b.g, s)
    case Break => Done(Broke, env, store, g)
    case Continue => Done(Continued, env, store, g)
    case Return => Done(Returned(None), env, store, g)
    case ReturnValue(e) =>
      var r := EvalAs(fuel, p, env, store, g, e, ret);
      if r.Stop? then Halt(r.why) else Done(Returned(Some(r.v)), env, store, r.g)
    case CallStmt(sig, args) =>
      var ra := EvalArgs(fuel, p, env, store, g, args, sig.params);
      if ra.Stop? then Halt(ra.why) else
      var r := CallFn(fuel, p, sig, ra.v, ra.g);
      if r.Stop? then Halt(r.why) else Done(Normal, env, store, r.g)
    case Block(b) =>
      ExecBlock(fuel, p, ret, env, store, g, b)
    case Echo(e) =>
      var r := EvalExp(fuel, p, env, store, g, e);
      if r.Stop? then Halt(r.why)
      else Done(Normal, env, store, r.g.(events := r.g.events + [EchoOf(r.v)]))
  }

  /** Runs a block in a scope of its own. */
  function ExecBlock(fuel: nat, p: Program, ret: Ty, env: Env, store: seq<Value>, g: Glob, b: seq<Stmt>): (r: StmtRes)
    ensures r.Done? ==> |store| <= |r.store|
    decreases fuel, 2, b, 1
  {
    var r := ExecStmts(fuel, p, ret, env + [[]], store, g, b);
    if r.Done? then r.(env := env) else r
  }

  function ExecStmts(fuel: nat, p: Program, ret: Ty, env: Env, store: seq<Value>, g: Glob, ss: seq<Stmt>): (r: StmtRes)
    ensures r.Done? ==> |store| <= |r.store|
    decreases fuel, 2, ss, 0
  {
    if ss == [] then Done(Normal, env, store, g)
    else
      var r := ExecStmt(fuel, p, ret, env, store, g, ss[0]);
      if r.Done? && r.out.Normal? then ExecStmts(fuel, p, ret, r.env, r.store, r.g, ss[1..]) else r
  }

  // How conditional statements and loops run

  lemma RunsWhile(fuel: nat, p: Program, ret: Ty, env: Env, store: seq<Value>, g: Glob, s: Stmt)
    requires s.While?
    ensures var r := EvalCond(fuel, p, env, store, g, s.c);
            ExecStmt(fuel, p, ret, env, store, g, s)
            == if fuel == 0 then Halt(Timeout)
               else if r.Stop? then Halt(r.why)
               else if !r.v then Done(Normal, env, store, r.g)
               else
                 var b := ExecBlock(fuel, p, ret, env, store, r.g, s.body);
                 if b.Halt? || b.out.Returned? then b
                 else if b.out.Broke? then b.(out := Normal)
                 else ExecStmt(fuel - 1, p, ret, env, b.store, b.g, s)
  {
    hide EvalCond, ExecBlock;
  }

  lemma RunsIf(fuel: nat, p: Program, ret: Ty, env: Env, store: seq<Value>, g: Glob, s: Stmt)
    requires s.If?
    ensures var r := EvalCond(fuel, p, env, store, g, s.c);
            ExecStmt(fuel, p, ret, env, store, g, s)
            == if r.Stop? then Halt(r.why)
               else if r.v then ExecBlock(fuel, p, ret, env, store, r.g, s.thn)
               else Done(Normal, env, store, r.g)
  {
    hide EvalCond, ExecBlock;
  }

  lemma RunsIfElse(fuel: nat, p: Program, ret: Ty, env: Env, store: seq<Value>, g: Glob, s: Stmt)
    requires s.IfElse?
    ensures var r := EvalCond(fuel, p, env, store, g, s.c);
            ExecStmt(fuel, p, ret, env, store, g, s)
            == if r.Stop? then Halt(r.why)
               else ExecBlock(fuel, p, ret, env, store, r.g, if r.v then s.thn else s.els)
  {
    hide EvalCond, ExecBlock;
  }
}
