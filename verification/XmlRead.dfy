/** A reader of dumps: from tokens back to the syntax tree, undoing the dump. */
module XmlRead {
  import opened Ast
  import opened XmlDump

  datatype Reading<+T> = Tree(tree: T) | Malformed {
    predicate IsFailure() {
      Malformed?
    }

    function PropagateFailure<U>(): Reading<U>
      requires IsFailure()
    {
      Malformed
    }

    function Extract(): T
      requires !IsFailure()
    {
      tree
    }
  }

  /** The text of a line with a given tag. */
  function ReadText(x: Xml, tag: Tag): Reading<string> {
    if x.Leaf? && x.tag == tag && x.text.Text? then Tree(x.text.s) else Malformed
  }

  function ReadLiteral(tag: Tag, text: Payload): Reading<Literal> {
    match (tag, text)
    case (StringConstant, Text(s)) => Tree(StringLit(s))
    case (FloatConstant, Real(r)) => Tree(FloatLit(r))
    case (IntConstant, Number(n)) => Tree(IntegerLit(n))
    case (CharConstant, Character(c)) => Tree(CharacterLit(c))
    case _ => Malformed
  }

  function ReadVar(x: Xml): Reading<VarNode>
    decreases x, 1
  {
    if x.Leaf? then
      var name :- ReadText(x, Tag.Var);
      Tree(Direct(name))
    else if |x.children| != 2 then Malformed
    else
      var cs := x.children;
      match x.tag
      case Field =>
        var e :- ReadIn(cs[0], AccessedExp);
        var f :- ReadText(cs[1], FieldName);
        Tree(FieldOf(e, f))
      case Indexed =>
        var e :- ReadIn(cs[0], IndexedExp);
        var i :- ReadIn(cs[1], IndexExp);
        Tree(IndexOf(e, i))
      case _ => Malformed
  }

  /** The expression inside a tag. */
  function ReadIn(x: Xml, tag: Tag): Reading<ExpNode>
    decreases x, 0
  {
    if x.Node? && x.tag == tag && |x.children| == 1 then ReadExp(x.children[0]) else Malformed
  }

  function ReadExp(x: Xml): Reading<ExpNode>
    decreases x, 1
  {
    if x.Leaf? then
      if x == Leaf(Null, NoText) then Tree(NullExp)
      else
        var l :- ReadLiteral(x.tag, x.text);
        Tree(LitExp(l))
    else if x.tag.Call? then
      var call :- ReadCall(x);
      Tree(CallExp(call))
    else
      var cs := x.children;
      match |cs|
      case 1 => ReadUnary(x)
      case 2 => ReadBinary(x)
      case 3 =>
        if !x.tag.ConditionalExp? then Malformed
        else
          var c :- ReadCond(cs[0]);
          var a :- ReadIn(cs[1], ThenExp);
          var b :- ReadIn(cs[2], ElseExp);
          Tree(CondExp(c, a, b))
      case _ => Malformed
  }

  function ReadUnary(x: Xml): Reading<ExpNode>
    requires x.Node? && |x.children| == 1
    decreases x, 0
  {
    var c := x.children[0];
    match x.tag
    case ExpVar =>
      var v :- ReadVar(c);
      Tree(VarExp(v))
    case Unary(op) =>
      var e :- ReadExp(c);
      Tree(UnaryExp(op, e))
    case New =>
      var t :- ReadText(c, Type);
      Tree(NewExp(t, None))
    case _ => Malformed
  }

  function ReadBinary(x: Xml): Reading<ExpNode>
    requires x.Node? && |x.children| == 2
    decreases x, 0
  {
    var cs := x.children;
    match x.tag
    case Binary(op) =>
      var l :- ReadIn(cs[0], OperandA);
      var r :- ReadIn(cs[1], OperandB);
      Tree(BinaryExp(op, l, r))
    case TypeCast =>
      var t :- ReadText(cs[0], Type);
      var e :- ReadIn(cs[1], CastedExp);
      Tree(CastExp(t, e))
    case New =>
      var t :- ReadText(cs[0], Type);
      var n :- ReadIn(cs[1], ArraySize);
      Tree(NewExp(t, Some(n)))
    case _ => Malformed
  }

  function ReadCall(x: Xml): Reading<CallNode>
    requires x.Node?
    decreases x, 0
  {
    var cs := x.children;
    if !x.tag.Call? || !(1 <= |cs| <= 2) then Malformed
    else
      var f :- ReadText(cs[0], Callee);
      if |cs| == 1 then Tree(CallNode(f, []))
      else if !cs[1].Node? || !cs[1].tag.Parameters? then Malformed
      else
        var args :- ReadArgs(cs[1].children);
        Tree(CallNode(f, args))
  }

  function ReadArgs(xs: seq<Xml>): Reading<seq<ExpNode>>
    decreases xs, 2
  {
    if xs == [] then Tree([])
    else
      var e :- ReadIn(xs[0], Parameter);
      var es :- ReadArgs(xs[1..]);
      Tree([e] + es)
  }

  function ReadCond(x: Xml): Reading<CondNode>
    decreases x, 1
  {
    if !x.Node? || !x.tag.Condition? || |x.children| != 1 || !x.children[0].Node? then Malformed
    else
      var y := x.children[0];
      if !y.tag.Negated? then ReadPlainCond(y, false)
      else if |y.children| != 1 || !y.children[0].Node? then Malformed
      else ReadPlainCond(y.children[0], true)
  }

  function ReadPlainCond(x: Xml, negate: bool): Reading<CondNode>
    requires x.Node?
    decreases x, 0
  {
    var cs := x.children;
    if |cs| != 2 then Malformed
    else
      match x.tag
      case Bin(op) =>
        var l :- ReadCond(cs[0]);
        var r :- ReadCond(cs[1]);
        Tree(BinNode(negate, op, l, r))
      case Compar(op) =>
        var l :- ReadExp(cs[0]);
        var r :- ReadExp(cs[1]);
        Tree(ComparNode(negate, op, l, r))
      case _ => Malformed
  }

  /** The statements inside a tag. */
  function ReadBlockIn(x: Xml, tag: Tag): Reading<seq<StmtNode>>
    decreases x, 0
  {
    if x.Node? && x.tag == tag then ReadBlock(x.children) else Malformed
  }

  function ReadBlock(xs: seq<Xml>): Reading<seq<StmtNode>>
    decreases xs, 2
  {
    if xs == [] then Tree([])
    else
      var s :- ReadStmt(xs[0]);
      var ss :- ReadBlock(xs[1..]);
      Tree([s] + ss)
  }

  function ReadStmt(x: Xml): Reading<StmtNode>
    decreases x, 1
  {
    if x.Leaf? then
      if x == Leaf(BreakTag, NoText) then Tree(BreakStmt)
      else if x == Leaf(ContinueTag, NoText) then Tree(ContinueStmt)
      else Malformed
    else
      var cs := x.children;
      match x.tag
      case Call =>
        var call :- ReadCall(x);
        Tree(XmlDump.CallStmt(call))
      case Block =>
        var b :- ReadBlock(cs);
        Tree(BlockStmt(b))
      case VariableDeclaration =>
        var d :- ReadNamed(x, Name, Type);
        Tree(VarDefStmt(d.0, d.1))
      case Return =>
        if cs == [] then Tree(ReturnStmt(None))
        else if |cs| != 1 then Malformed
        else
          var e :- ReadExp(cs[0]);
          Tree(ReturnStmt(Some(e)))
      case Echo =>
        if |cs| != 1 then Malformed
        else
          var e :- ReadExp(cs[0]);
          Tree(EchoStmt(e))
      case _ => ReadCompound(x)
  }

  function ReadCompound(x: Xml): Reading<StmtNode>
    requires x.Node?
    decreases x, 0
  {
    var cs := x.children;
    if x.tag.If? && |cs| == 3 then
      var c :- ReadCond(cs[0]);
      var t :- ReadBlockIn(cs[1], Then);
      var e :- ReadBlockIn(cs[2], Else);
      Tree(IfElseStmt(c, t, e))
    else if |cs| != 2 then Malformed
    else
      match x.tag
      case If =>
        var c :- ReadCond(cs[0]);
        var t :- ReadBlockIn(cs[1], Then);
        Tree(IfStmt(c, t))
      case While =>
        var c :- ReadCond(cs[0]);
        var b :- ReadBlockIn(cs[1], Do);
        Tree(WhileStmt(c, b))
      case Assignment =>
        var v :- ReadVar(cs[0]);
        var e :- ReadExp(cs[1]);
        Tree(AssignStmt(v, e))
      case _ => Malformed
  }

  /** Two lines inside a node. */
  function ReadNamed(x: Xml, first: Tag, second: Tag): Reading<(string, string)> {
    if !x.Node? || |x.children| != 2 then Malformed
    else
      var a :- ReadText(x.children[0], first);
      var b :- ReadText(x.children[1], second);
      Tree((a, b))
  }

  function ReadParams(xs: seq<Xml>): Reading<seq<Named>> {
    if xs == [] then Tree([])
    else if !xs[0].tag.Parameter? then Malformed
    else
      var p :- ReadNamed(xs[0], Name, Type);
      var ps :- ReadParams(xs[1..]);
      Tree([Named(p.0, p.1)] + ps)
  }

  function ReadFields(xs: seq<Xml>): Reading<seq<Named>> {
    if xs == [] then Tree([])
    else if !xs[0].tag.Field? then Malformed
    else
      var f :- ReadNamed(xs[0], Type, Name);
      var fs :- ReadFields(xs[1..]);
      Tree([Named(f.1, f.0)] + fs)
  }

  function ReadTypeDesc(x: Xml): Reading<TypeDesc> {
    if !x.Node? || !x.tag.TypeDescTag? || |x.children| != 1 then Malformed
    else
      var d := x.children[0];
      if d.Leaf? then
        var t :- ReadText(d, Alias);
        Tree(AliasDesc(t))
      else if |d.children| != 1 then Malformed
      else if d.tag.Array? then
        var inner :- ReadTypeDesc(d.children[0]);
        Tree(ArrayDesc(inner))
      else if d.tag.Record? && d.children[0].Node? && d.children[0].tag.Fields? then
        var fs :- ReadFields(d.children[0].children);
        Tree(RecordDesc(fs))
      else Malformed
  }

  function ReadDef(x: Xml): Reading<DefNode> {
    if !x.Node? then Malformed
    else
      var cs := x.children;
      match x.tag
      case VariableDeclaration =>
        var d :- ReadNamed(x, Name, Type);
        Tree(GlobalNode(d.0, d.1))
      case TypeDefinition =>
        if |cs| != 2 then Malformed
        else
          var name :- ReadText(cs[0], Name);
          var desc :- ReadTypeDesc(cs[1]);
          Tree(TypeNode(name, desc))
      case FunctionDefinition => ReadFunc(cs)
      case _ => Malformed
  }

  /** Empty parameters and a missing body are left out. */
  function ReadFunc(cs: seq<Xml>): Reading<DefNode> {
    if |cs| < 2 then Malformed
    else
      var name :- ReadText(cs[0], Name);
      var ret :- ReadText(cs[1], ReturnType);
      var listed := |cs| > 2 && cs[2].Node? && cs[2].tag.Parameters?;
      var params :- if listed then ReadParams(cs[2].children) else Tree([]);
      var rest := if listed then cs[3..] else cs[2..];
      if rest == [] then Tree(FuncNode(name, ret, params, None))
      else
        var body :- ReadBlockIn(rest[0], Tag.Block);
        Tree(FuncNode(name, ret, params, Some(body)))
  }

  function ReadDefs(xs: seq<Xml>): Reading<seq<DefNode>> {
    if xs == [] then Tree([])
    else
      var d :- ReadDef(xs[0]);
      var ds :- ReadDefs(xs[1..]);
      Tree([d] + ds)
  }

  /** The module whose dump the tokens are. */
  function ReadDump(ts: seq<Token>): Reading<seq<DefNode>> {
    var (xs, rest) := Forest(ts);
    if rest == [] && |xs| == 1 && xs[0].Node? && xs[0].tag.Module? then ReadDefs(xs[0].children) else Malformed
  }

  // Reading undoes dumping

  lemma {:induction false} ReadsVar(v: VarNode)
    ensures ReadVar(OfVar(v)) == Tree(v)
    decreases v, 0
  {
    hide ReadIn;
    match v
    case Direct(_) =>
    case FieldOf(e, _) => ReadsIn(e, AccessedExp);
    case IndexOf(e, i) =>
      ReadsIn(e, IndexedExp);
      ReadsIn(i, IndexExp);
  }

  lemma {:induction false} ReadsIn(e: ExpNode, tag: Tag)
    ensures ReadIn(Node(tag, [OfExp(e)]), tag) == Tree(e)
    decreases e, 2
  {
    hide ReadExp, OfExp;
    ReadsExp(e);
  }

  lemma {:induction false} ReadsExp(e: ExpNode)
    ensures ReadExp(OfExp(e)) == Tree(e)
    decreases e, 1
  {
    hide ReadCond, ReadVar, ReadCall, ReadIn, OfCond, OfVar, OfCall;
    match e
    case CondExp(c, a, b) =>
      ReadsCond(c);
      ReadsIn(a, ThenExp);
      ReadsIn(b, ElseExp);
    case VarExp(v) => ReadsVar(v);
    case UnaryExp(_, a) => ReadsExp(a);
    case BinaryExp(_, l, r) =>
      ReadsIn(l, OperandA);
      ReadsIn(r, OperandB);
    case CastExp(_, a) => ReadsIn(a, CastedExp);
    case NewExp(_, size) =>
      if size.Some? {
        ReadsIn(size.value, ArraySize);
      }
    case LitExp(_) =>
    case CallExp(call) =>
      ReadsCall(call);
      CallIs(call);
    case NullExp =>
  }

  lemma CallIs(call: CallNode)
    ensures OfCall(call).Node? && OfCall(call).tag == Tag.Call
  {
  }

  lemma {:induction false} ReadsCall(call: CallNode)
    ensures OfCall(call).Node? && ReadCall(OfCall(call)) == Tree(call)
    decreases call, 0
  {
    hide ReadArgs, OfArgs;
    ReadsArgs(call.args);
  }

  lemma {:induction false} ReadsArgs(es: seq<ExpNode>)
    ensures ReadArgs(OfArgs(es)) == Tree(es)
    decreases es, 3
  {
    hide ReadIn, OfExp;
    if es != [] {
      ReadsIn(es[0], Parameter);
      ReadsArgs(es[1..]);
      assert OfArgs(es)[1..] == OfArgs(es[1..]) && es == [es[0]] + es[1..];
    }
  }

  lemma {:induction false} ReadsCond(c: CondNode)
    ensures ReadCond(OfCond(c)) == Tree(c)
    decreases c, 1
  {
    hide ReadPlainCond;
    match c
    case BinNode(_, op, l, r) => ReadsBin(c);
    case ComparNode(_, op, l, r) => ReadsCompar(c);
  }

  lemma {:induction false} ReadsBin(c: CondNode)
    requires c.BinNode?
    ensures ReadPlainCond(Node(Bin(c.cop), [OfCond(c.lc), OfCond(c.rc)]), c.negate) == Tree(c)
    decreases c, 0
  {
    hide ReadCond, OfCond;
    ReadsCond(c.lc);
    ReadsCond(c.rc);
  }

  lemma {:induction false} ReadsCompar(c: CondNode)
    requires c.ComparNode?
    ensures ReadPlainCond(Node(Tag.Compar(c.cmp), [OfExp(c.le), OfExp(c.re)]), c.negate) == Tree(c)
    decreases c, 0
  {
    hide ReadExp, OfExp;
    ReadsExp(c.le);
    ReadsExp(c.re);
  }

  lemma {:induction false} ReadsStmt(s: StmtNode)
    ensures ReadStmt(OfStmt(s)) == Tree(s)
    decreases s, 1
  {
    hide ReadExp, ReadCall, ReadBlock, ReadCompound, OfExp, OfCond, OfVar, OfCall, OfBlock;
    match s
    case ReturnStmt(ret) =>
      if ret.Some? {
        ReadsExp(ret.value);
      }
    case CallStmt(call) =>
      ReadsCall(call);
      CallIs(call);
    case EchoStmt(e) => ReadsExp(e);
    case BlockStmt(b) => ReadsBlock(b);
    case BreakStmt =>
    case ContinueStmt =>
    case VarDefStmt(_, _) =>
    case _ => ReadsCompound(s);
  }

  lemma {:induction false} ReadsCompound(s: StmtNode)
    requires s.IfStmt? || s.IfElseStmt? || s.WhileStmt? || s.AssignStmt?
    ensures OfStmt(s).Node? && ReadCompound(OfStmt(s)) == Tree(s)
    decreases s, 0
  {
    hide ReadExp, ReadCond, ReadVar, ReadBlockIn, OfExp, OfCond, OfVar, OfBlock;
    match s
    case IfStmt(c, t) =>
      ReadsCond(c);
      ReadsBlockIn(t, Then);
    case IfElseStmt(c, t, e) =>
      ReadsCond(c);
      ReadsBlockIn(t, Then);
      ReadsBlockIn(e, Else);
    case WhileStmt(c, b) =>
      ReadsCond(c);
      ReadsBlockIn(b, Do);
    case AssignStmt(v, e) =>
      ReadsVar(v);
      ReadsExp(e);
  }

  lemma {:induction false} ReadsBlockIn(ss: seq<StmtNode>, tag: Tag)
    ensures ReadBlockIn(Node(tag, OfBlock(ss)), tag) == Tree(ss)
    decreases ss, 1
  {
    hide ReadBlock, OfBlock;
    ReadsBlock(ss);
  }

  lemma {:induction false} ReadsBlock(ss: seq<StmtNode>)
    ensures ReadBlock(OfBlock(ss)) == Tree(ss)
    decreases ss, 0
  {
    hide ReadStmt, OfStmt;
    if ss != [] {
      ReadsStmt(ss[0]);
      ReadsBlock(ss[1..]);
      assert OfBlock(ss)[1..] == OfBlock(ss[1..]) && ss == [ss[0]] + ss[1..];
    }
  }

  lemma ReadsParam(p: Named)
    ensures OfParam(p).tag == Parameter && ReadNamed(OfParam(p), Name, Type) == Tree((p.name, p.t))
  {
  }

  lemma {:induction false} ReadsParams(ps: seq<Named>)
    ensures ReadParams(OfParams(ps)) == Tree(ps)
  {
    hide ReadNamed, OfParam;
    if ps != [] {
      ReadsParam(ps[0]);
      ReadsParams(ps[1..]);
      assert OfParams(ps)[1..] == OfParams(ps[1..]) && ps == [ps[0]] + ps[1..];
    }
  }

  lemma ReadsField(f: Named)
    ensures ReadNamed(Node(Field, [Leaf(Type, Text(f.t)), Leaf(Name, Text(f.name))]), Type, Name) == Tree((f.t, f.name))
  {
  }

  lemma {:induction false} ReadsFields(fs: seq<Named>)
    ensures ReadFields(OfFields(fs)) == Tree(fs)
  {
    hide ReadNamed;
    if fs != [] {
      ReadsField(fs[0]);
      ReadsFields(fs[1..]);
      assert OfFields(fs)[1..] == OfFields(fs[1..]) && fs == [fs[0]] + fs[1..];
    }
  }

  lemma {:induction false} ReadsTypeDesc(d: TypeDesc)
    ensures ReadTypeDesc(OfTypeDesc(d)) == Tree(d)
  {
    match d
    case AliasDesc(_) =>
    case RecordDesc(fs) => ReadsFields(fs);
    case ArrayDesc(inner) => ReadsTypeDesc(inner);
  }

  lemma ReadsDef(d: DefNode)
    ensures ReadDef(OfDef(d)) == Tree(d)
  {
    hide ReadFunc, OfBlock, OfParams, ReadTypeDesc, OfTypeDesc;
    match d
    case GlobalNode(_, _) =>
    case TypeNode(_, desc) => ReadsTypeDesc(desc);
    case FuncNode(_, _, _, _) => ReadsFunc(d);
  }

  lemma ReadsFunc(d: DefNode)
    requires d.FuncNode?
    ensures ReadFunc(OfDef(d).children) == Tree(d)
  {
    hide ReadBlockIn, OfBlock, ReadParams, OfParams;
    var body := if d.body.None? then [] else [Node(Tag.Block, OfBlock(d.body.value))];
    var cs := OfDef(d).children;
    if d.params != [] {
      ReadsParams(d.params);
      assert cs[3..] == body;
    } else {
      assert cs[2..] == body;
    }
    if d.body.Some? {
      ReadsBlockIn(d.body.value, Tag.Block);
    }
  }

  lemma {:induction false} ReadsDefs(ds: seq<DefNode>)
    ensures ReadDefs(OfDefs(ds)) == Tree(ds)
  {
    hide ReadDef, OfDef;
    if ds != [] {
      ReadsDef(ds[0]);
      ReadsDefs(ds[1..]);
      assert OfDefs(ds)[1..] == OfDefs(ds[1..]) && ds == [ds[0]] + ds[1..];
    }
  }

  /** Reading a dump gives back the module it was made from. */
  lemma ReadsDump(ds: seq<DefNode>)
    ensures ReadDump(Dump(ds)) == Tree(ds)
  {
    hide Forest, OfDefs, ReadDefs;
    var x := OfModule(ds);
    OneTree(x);
    ReadsForest([x], []);
    assert Lines([x]) + [] == Dump(ds);
    ReadsDefs(ds);
  }

  // So the dump determines the tree

  lemma ExpDetermined(a: ExpNode, b: ExpNode)
    requires OfExp(a) == OfExp(b)
    ensures a == b
  {
    hide ReadExp, OfExp;
    ReadsExp(a);
    ReadsExp(b);
  }

  lemma StmtDetermined(a: StmtNode, b: StmtNode)
    requires OfStmt(a) == OfStmt(b)
    ensures a == b
  {
    hide ReadStmt, OfStmt;
    ReadsStmt(a);
    ReadsStmt(b);
  }

  lemma DefDetermined(a: DefNode, b: DefNode)
    requires OfDef(a) == OfDef(b)
    ensures a == b
  {
    hide ReadDef, OfDef;
    ReadsDef(a);
    ReadsDef(b);
  }

  lemma DumpDetermines(a: seq<DefNode>, b: seq<DefNode>)
    requires Dump(a) == Dump(b)
    ensures a == b
  {
    hide ReadDump, Dump;
    ReadsDump(a);
    ReadsDump(b);
  }
}
