/** Semantic analysis as functions: scopes, type rules, and the resolution of names and types. */
module Sem {
  import opened Ast
  import opened Raw

  // Types by reference: a type definition is known by its name, which is declared once

  datatype TRef = TErr | TName(name: string)

  /** What each user-defined type name is an alias of. */
  type Aliases = map<string, TRef>

  /** The type reached by following up to `n` aliases. */
  function Follow(al: Aliases, t: TRef, n: nat): TRef
    decreases n
  {
    if n == 0 || Ended(al, t) then t else Follow(al, al[t.name], n - 1)
  }

  predicate Ended(al: Aliases, t: TRef) {
    t.TErr? || t.name !in al
  }

  function ScalarTy(name: string): Option<Ty> {
    if name == "char" then Some(Char)
    else if name == "byte" then Some(Byte)
    else if name == "short" then Some(Short)
    else if name == "int" then Some(Int)
    else if name == "long" then Some(Long)
    else if name == "intptr" then Some(IntPtr)
    else if name == "void" then Some(Void)
    else None
  }

  const VOID := TName("void")

  function Primitive(t: TRef): Ty {
    if t.TErr? then Err else match ScalarTy(t.name) case Some(ty) => ty case None => Err
  }

  /** The underlying type; aliases that do not run in circles end within `|al|` steps. */
  function Under(al: Aliases, t: TRef): Ty {
    Primitive(Follow(al, t, |al|))
  }

  function Unders(al: Aliases, ts: seq<TRef>): (r: seq<Ty>)
    ensures |r| == |ts| && forall i :: 0 <= i < |ts| ==> r[i] == Under(al, ts[i])
  {
    seq(|ts|, i requires 0 <= i < |ts| => Under(al, ts[i]))
  }

  // Type rules, on underlying types; the error type is let through so that one mistake is reported once

  predicate IntLike(t: Ty) {
    IsInt(t) || t.Err?
  }

  predicate Assignable(to: Ty, from: Ty) {
    to.Err? || from.Err? || (IsInt(to) && IsInt(from)) || to == from
  }

  predicate IsPrimitive(t: Ty) {
    !t.Err?
  }

  predicate Castable(to: Ty, from: Ty) {
    (IsPrimitive(to) && IsPrimitive(from)) || Assignable(to, from)
  }

  function UnopType(t: Ty): Option<Ty> {
    if IntLike(t) then Some(t) else None
  }

  function BinopType(l: Ty, r: Ty, op: BinOp): Option<Ty> {
    if l.Err? || r.Err? then Some(l)
    else match op
      case BitAnd | BitOr | Xor => if l == r && IsInt(l) then Some(l) else None
      case _ => if Assignable(l, r) && IsInt(l) && IsInt(r) then Some(l) else None
  }

  function ConditionalType(thn: Ty, els: Ty): Option<Ty> {
    if Assignable(thn, els) then Some(thn) else None
  }

  predicate CanCompare(a: Ty, b: Ty, op: CmpOp) {
    if op.Eq? || op.Ne? then Assignable(a, b) else IntLike(a) && IntLike(b)
  }

  // Scopes

  datatype Kind = KVar(t: TRef, node: Node) | KParam(t: TRef, node: Node) | KFunc(params: seq<TRef>, ret: TRef) | KType

  datatype Symbol = Symbol(name: string, kind: Kind)

  type Scope = seq<Symbol>

  /** Names that cannot be declared: those of the built-in types. */
  predicate Reserved(x: string) {
    ScalarTy(x).Some? || x == "float" || x == "double" || x == "string" || x == "<error-type>" || x == "<null-type>"
  }

  function Find(s: Scope, x: string): Option<Kind> {
    if s == [] then None
    else if s[0].name == x then Some(s[0].kind)
    else Find(s[1..], x)
  }

  /** None when the name is in this scope already or is reserved. */
  function TryAdd(s: Scope, sym: Symbol): Option<Scope> {
    if Find(s, sym.name).Some? || Reserved(sym.name) then None else Some(s + [sym])
  }

  /** The global scope, by name. */
  type Table = map<string, Kind>

  function TableOf(s: Scope): Table {
    if s == [] then map[] else TableOf(s[1..])[s[0].name := s[0].kind]
  }

  /** What can be seen at a place in the program; `locals` are the scopes inside the global one, innermost last. */
  datatype Names = Names(table: Table, aliases: Aliases, locals: seq<Scope>)

  function Lookup(c: Names, x: string): Option<Kind>
    decreases |c.locals|
  {
    if c.locals == [] then
      if x in c.table then Some(c.table[x])
      else if ScalarTy(x).Some? then Some(KType) else None
    else
      var last := |c.locals| - 1;
      match Find(c.locals[last], x)
      case Some(k) => Some(k)
      case None => Lookup(c.(locals := c.locals[..last]), x)
  }

  function FindType(c: Names, x: string): Option<TRef> {
    if Lookup(c, x) == Some(KType) then Some(TName(x)) else None
  }

  function TypeOr(t: Option<TRef>): TRef {
    if t.Some? then t.value else TErr
  }

  // Expressions

  /** What a variable was resolved to: its definition, and the type that this was given. */
  datatype VarRef = VarRef(t: TRef, def: Definition)

  function ResolveVar(c: Names, x: string): Option<VarRef> {
    match Lookup(c, x)
    case Some(KVar(t, node)) => Some(VarRef(t, VarDefinition(node)))
    case Some(KParam(t, node)) => Some(VarRef(t, ParamDefinition(node)))
    case _ => None
  }

  function IntLitType(n: int): Ty {
    if -0x8000_0000 <= n <= 0x7FFF_FFFF then Int else Long
  }

  function ResolveExp(c: Names, e: RExp): Option<Exp>
    decreases e, 1
  {
    match e
    case RInt(n) => Some(IntLit(n, IntLitType(n)))
    case RChar(k) => Some(CharLit(k))
    case RVar(x) =>
      var r := ResolveVar(c, x);
      if r.None? then None else Some(Var(x, Under(c.aliases, r.value.t), r.value.def))
    case RUnary(op, a) =>
      var r := ResolveExp(c, a);
      if r.None? then None else
      var t := UnopType(TyOf(r.value));
      if t.None? then None else Some(Unary(op, r.value, t.value))
    case RBinary(op, a, b) =>
      var l := ResolveExp(c, a);
      if l.None? then None else
      var r := ResolveExp(c, b);
      if r.None? then None else
      var t := BinopType(TyOf(l.value), TyOf(r.value), op);
      if t.None? then None else Some(Binary(op, l.value, r.value, t.value))
    case RCast(a, tname) =>
      var r := ResolveExp(c, a);
      if r.None? then None else
      var t := FindType(c, tname);
      if t.None? || !Castable(Under(c.aliases, t.value), TyOf(r.value)) then None
      else Some(Cast(r.value, tname, Under(c.aliases, t.value)))
    case RConditional(cond, a, b) =>
      var rc := ResolveCond(c, cond);
      if rc.None? then None else
      var ra := ResolveExp(c, a);
      if ra.None? then None else
      var rb := ResolveExp(c, b);
      if rb.None? then None else
      var t := ConditionalType(TyOf(ra.value), TyOf(rb.value));
      if t.None? then None else Some(Conditional(rc.value, ra.value, rb.value, t.value))
    case RCall(f, args) =>
      var r := ResolveCall(c, f, args);
      if r.None? then None else Some(Call(r.value.0, r.value.1))
  }

  /** The callee and the arguments. */
  function ResolveCall(c: Names, f: string, args: seq<RExp>): Option<(Sig, seq<Exp>)>
    decreases args, 1
  {
    match Lookup(c, f)
    case Some(KFunc(params, ret)) =>
      if |args| != |params| then None else
      var ts := Unders(c.aliases, params);
      var r := ResolveArgs(c, args, ts);
      if r.None? then None else Some((Sig(f, ts, Under(c.aliases, ret)), r.value))
    case _ => None
  }

  function ResolveArgs(c: Names, args: seq<RExp>, ts: seq<Ty>): Option<seq<Exp>>
    requires |args| == |ts|
    decreases args, 0
  {
    if args == [] then Some([])
    else
      var e := ResolveExp(c, args[0]);
      if e.None? || !Assignable(ts[0], TyOf(e.value)) then None else
      var r := ResolveArgs(c, args[1..], ts[1..]);
      if r.None? then None else Some([e.value] + r.value)
  }

  function ResolveCond(c: Names, cond: RCond): Option<Cond>
    decreases cond, 1
  {
    match cond
    case RBinCond(neg, op, a, b) =>
      var l := ResolveCond(c, a);
      if l.None? then None else
      var r := ResolveCond(c, b);
      if r.None? then None else Some(BinCond(neg, op, l.value, r.value))
    case RCompar(neg, op, a, b) =>
      var l := ResolveExp(c, a);
      if l.None? then None else
      var r := ResolveExp(c, b);
      if r.None? || !CanCompare(TyOf(l.value), TyOf(r.value), op) then None
      else Some(Compar(neg, op, l.value, r.value))
  }

  // Statements: the scopes they leave, and the statement if it is accepted

  datatype StmtRes = StmtRes(locals: seq<Scope>, stmt: Option<Stmt>)
  datatype BlockRes = BlockRes(locals: seq<Scope>, stmts: Option<seq<Stmt>>)

  /** A variable of unknown type is declared all the same, with the error type. */
  function ResolveVarDef(c: Names, x: string, tname: string, node: Node): StmtRes
    requires c.locals != []
  {
    var t := FindType(c, tname);
    var last := |c.locals| - 1;
    var s := TryAdd(c.locals[last], Symbol(x, KVar(TypeOr(t), node)));
    StmtRes(if s.Some? then c.locals[last := s.value] else c.locals,
            if s.Some? && t.Some? then Some(VarDef(x, tname, Under(c.aliases, t.value), node)) else None)
  }

  function ResolveStmt(c: Names, ret: TRef, level: nat, s: RStmt): (r: StmtRes)
    requires c.locals != []
    ensures |r.locals| == |c.locals|
    decreases s, 0
  {
    match s
    case RVarDef(x, tname, node) => ResolveVarDef(c, x, tname, node)
    case RIf(cond, t) =>
      var rc := ResolveCond(c, cond);
      var rt := ResolveInner(c, ret, level, t);
      StmtRes(c.locals, if rc.Some? && rt.Some? then Some(If(rc.value, rt.value)) else None)
    case RIfElse(cond, t, e) =>
      var rc := ResolveCond(c, cond);
      var rt := ResolveInner(c, ret, level, t);
      var re := ResolveInner(c, ret, level, e);
      StmtRes(c.locals, if rc.Some? && rt.Some? && re.Some? then Some(IfElse(rc.value, rt.value, re.value)) else None)
    case RWhile(cond, b) =>
      var rc := ResolveCond(c, cond);
      var rb := ResolveInner(c, ret, level + 1, b);
      StmtRes(c.locals, if rc.Some? && rb.Some? then Some(While(rc.value, rb.value)) else None)
    case RAssign(x, e) =>
      var re := ResolveExp(c, e);
      var v := ResolveVar(c, x);
      StmtRes(c.locals,
              if re.Some? && v.Some? && Assignable(Under(c.aliases, v.value.t), TyOf(re.value))
              then Some(Assign(x, Under(c.aliases, v.value.t), v.value.def, re.value)) else None)
    case RReturn => StmtRes(c.locals, if ret == VOID then Some(Return) else None)
    case RReturnValue(e) =>
      var re := ResolveExp(c, e);
      StmtRes(c.locals,
              if re.Some? && Assignable(Under(c.aliases, ret), TyOf(re.value)) then Some(ReturnValue(re.value))
              else None)
    case RBreak => StmtRes(c.locals, if level > 0 then Some(Break) else None)
    case RContinue => StmtRes(c.locals, if level > 0 then Some(Continue) else None)
    case RCallStmt(f, args) =>
      var r := ResolveCall(c, f, args);
      StmtRes(c.locals, if r.Some? then Some(CallStmt(r.value.0, r.value.1)) else None)
    case RBlock(b) =>
      var r := ResolveInner(c, ret, level, b);
      StmtRes(c.locals, if r.Some? then Some(Block(r.value)) else None)
    case REcho(e) =>
      var re := ResolveExp(c, e);
      StmtRes(c.locals, if re.Some? then Some(Echo(re.value)) else None)
  }

  /** A block in a scope of its own. */
  function ResolveInner(c: Names, ret: TRef, level: nat, b: seq<RStmt>): Option<seq<Stmt>>
    decreases b, 1
  {
    ResolveBlock(c.(locals := c.locals + [[]]), ret, level, b).stmts
  }

  /** All statements, whether or not one before them is rejected. */
  function ResolveBlock(c: Names, ret: TRef, level: nat, b: seq<RStmt>): (r: BlockRes)
    requires c.locals != []
    ensures |r.locals| == |c.locals|
    decreases b, 0
  {
    if b == [] then BlockRes(c.locals, Some([]))
    else
      var s := ResolveStmt(c, ret, level, b[0]);
      var r := ResolveBlock(c.(locals := s.locals), ret, level, b[1..]);
      BlockRes(r.locals, if s.stmt.Some? && r.stmts.Some? then Some([s.stmt.value] + r.stmts.value) else None)
  }

  /** The `allPathsExit` mark, which is set whether or not the block is accepted. */
  predicate RExits(b: seq<RStmt>)
    decreases b
  {
    b != [] && (RStmtExits(b[0]) || RExits(b[1..]))
  }

  predicate RStmtExits(s: RStmt)
    decreases s
  {
    match s
    case RBreak => true
    case RContinue => true
    case RReturn => true
    case RReturnValue(_) => true
    case RBlock(b) => RExits(b)
    case RIfElse(_, t, e) => RExits(t) && RExits(e)
    case _ => false
  }

  // Definitions

  /** The types that a function declaration fills in. */
  datatype Decl = Decl(params: seq<TRef>, ret: TRef)

  datatype ScopeRes = ScopeRes(scope: Scope, ok: bool)
  datatype DeclRes = DeclRes(scope: Scope, decl: Decl, ok: bool)
  datatype ParamsRes = ParamsRes(types: seq<TRef>, ok: bool, clash: bool)
  datatype DeclsRes = DeclsRes(scope: Scope, decls: seq<Decl>, ok: bool)

  function Globals(g: Scope): Names {
    Names(TableOf(g), map[], [])
  }

  /** The parameters are checked in a scope of their own, where a parameter can hide a type; the first name that
      cannot be added ends the check. */
  function DeclareParams(g: Scope, ps: seq<Param>, scope: Scope): ParamsRes
    decreases |ps|
  {
    if ps == [] then ParamsRes([], true, false)
    else
      var t := FindType(Names(TableOf(g), map[], [scope]), ps[0].tname);
      var s := TryAdd(scope, Symbol(ps[0].name, KParam(TypeOr(t), ps[0].node)));
      if s.None? then ParamsRes([TypeOr(t)], false, true)
      else
        var r := DeclareParams(g, ps[1..], s.value);
        ParamsRes([TypeOr(t)] + r.types, t.Some? && r.ok, r.clash)
  }

  /** A function whose parameters clash is taken out of the scope again; one with an unknown type stays. */
  function DeclareFunc(g: Scope, name: string, ps: seq<Param>, ret: string): DeclRes {
    if TryAdd(g, Symbol(name, KType)).None? then DeclRes(g, Decl([], TErr), false)
    else
      // the function's own name is in scope while its types are looked up
      var g0 := g + [Symbol(name, KFunc([], TErr))];
      var t := FindType(Globals(g0), ret);
      var p := DeclareParams(g0, ps, []);
      var d := Decl(p.types, TypeOr(t));
      if p.clash then DeclRes(g, d, false)
      else DeclRes(g + [Symbol(name, KFunc(d.params, d.ret))], d, t.Some? && p.ok)
  }

  function DeclareTypes(g: Scope, ds: seq<Def>): ScopeRes
    decreases |ds|
  {
    if ds == [] then ScopeRes(g, true)
    else if !ds[0].TypeDef? then DeclareTypes(g, ds[1..])
    else
      var s := TryAdd(g, Symbol(ds[0].name, KType));
      var r := DeclareTypes(if s.Some? then s.value else g, ds[1..]);
      ScopeRes(r.scope, s.Some? && r.ok)
  }

  /** One `Decl` for each definition of a function. */
  function DeclareFuncs(g: Scope, ds: seq<Def>): DeclsRes
    decreases |ds|
  {
    if ds == [] then DeclsRes(g, [], true)
    else if !ds[0].FuncDef? then DeclareFuncs(g, ds[1..])
    else
      var d := DeclareFunc(g, ds[0].name, ds[0].params, ds[0].ret);
      var r := DeclareFuncs(d.scope, ds[1..]);
      DeclsRes(r.scope, [d.decl] + r.decls, d.ok && r.ok)
  }

  function DeclareVar(g: Scope, x: string, tname: string, node: Node): ScopeRes {
    var t := FindType(Globals(g), tname);
    var s := TryAdd(g, Symbol(x, KVar(TypeOr(t), node)));
    ScopeRes(if s.Some? then s.value else g, t.Some? && s.Some?)
  }

  function DeclareVars(g: Scope, ds: seq<Def>): ScopeRes
    decreases |ds|
  {
    if ds == [] then ScopeRes(g, true)
    else if !ds[0].GlobalDef? then DeclareVars(g, ds[1..])
    else
      var v := DeclareVar(g, ds[0].name, ds[0].tname, ds[0].node);
      var r := DeclareVars(v.scope, ds[1..]);
      ScopeRes(r.scope, v.ok && r.ok)
  }

  datatype AliasRes = AliasRes(aliases: Aliases, ok: bool)

  function DescribeTypes(g: Scope, al: Aliases, ds: seq<Def>): AliasRes
    decreases |ds|
  {
    if ds == [] then AliasRes(al, true)
    else if !ds[0].TypeDef? then DescribeTypes(g, al, ds[1..])
    else
      var t := FindType(Globals(g), ds[0].aliased);
      var r := DescribeTypes(g, al[ds[0].name := TypeOr(t)], ds[1..]);
      AliasRes(r.aliases, t.Some? && r.ok)
  }

  function ParamScope(ps: seq<Param>, ts: seq<TRef>): Scope {
    seq(|ps|, i requires 0 <= i < |ps| => Symbol(ps[i].name, KParam(if i < |ts| then ts[i] else TErr, ps[i].node)))
  }

  function ParamNames(ps: seq<Param>): seq<string> {
    seq(|ps|, i requires 0 <= i < |ps| => ps[i].name)
  }

  function ParamNodes(ps: seq<Param>): seq<Node> {
    seq(|ps|, i requires 0 <= i < |ps| => ps[i].node)
  }

  /** The annotated function, given its annotated body. */
  function FuncOf(al: Aliases, f: Def, d: Decl, body: seq<Stmt>): Func
    requires f.FuncDef?
  {
    Func(Sig(f.name, Unders(al, d.params), Under(al, d.ret)), ParamNames(f.params), ParamNodes(f.params), body)
  }

  /** The parameters and the body share a scope. */
  function ResolveImpl(table: Table, al: Aliases, f: Def, d: Decl): Option<Func>
    requires f.FuncDef? && f.body.Some?
  {
    var b := ResolveBlock(Names(table, al, [ParamScope(f.params, d.params)]), d.ret, 0, f.body.value);
    if b.stmts.None? || (d.ret != VOID && !RExits(f.body.value)) then None
    else Some(FuncOf(al, f, d, b.stmts.value))
  }

  datatype ImplRes = ImplRes(program: Program, ok: bool)

  function ResolveImpls(table: Table, al: Aliases, p: Program, ds: seq<Def>, decls: seq<Decl>): ImplRes
    decreases |ds|
  {
    if ds == [] then ImplRes(p, true)
    else if !ds[0].FuncDef? || decls == [] then ResolveImpls(table, al, p, ds[1..], decls)
    else if ds[0].body.None? then ResolveImpls(table, al, p, ds[1..], decls[1..])
    else
      var f := ResolveImpl(table, al, ds[0], decls[0]);
      var r := ResolveImpls(table, al, if f.Some? then p[ds[0].name := f.value] else p, ds[1..], decls[1..]);
      ImplRes(r.program, f.Some? && r.ok)
  }

  /** What analysis leaves of an accepted program. */
  datatype Analysis = Analysis(table: Table, aliases: Aliases, program: Program)

  /** Types, then functions, then global variables, then type descriptions, then bodies; every phase is run,
      whether or not the one before it found mistakes. */
  function Analyse(ds: seq<Def>): Option<Analysis> {
    var g1 := DeclareTypes([], ds);
    var g2 := DeclareFuncs(g1.scope, ds);
    var g3 := DeclareVars(g2.scope, ds);
    var a := DescribeTypes(g3.scope, map[], ds);
    var p := ResolveImpls(TableOf(g3.scope), a.aliases, map[], ds, g2.decls);
    if g1.ok && g2.ok && g3.ok && a.ok && p.ok then Some(Analysis(TableOf(g3.scope), a.aliases, p.program)) else None
  }
}
