/** The XML dump of a syntax tree, and a reader of its tokens: its tags are balanced. */
module XmlDump {
  import opened Ast

  // The trees that are dumped

  datatype Literal = StringLit(s: string) | FloatLit(r: real) | IntegerLit(n: int) | CharacterLit(c: char)
  datatype UnaryOp = Neg | Not | Len

  datatype VarNode = Direct(name: string) | FieldOf(exp: ExpNode, field: string) | IndexOf(exp: ExpNode, index: ExpNode)

  datatype ExpNode =
    | CondExp(cond: CondNode, thn: ExpNode, els: ExpNode)
    | VarExp(v: VarNode)
    | UnaryExp(uop: UnaryOp, e: ExpNode)
    | BinaryExp(bop: BinOp, l: ExpNode, r: ExpNode)
    | CastExp(t: string, e: ExpNode)
    | NewExp(t: string, size: Option<ExpNode>)
    | LitExp(lit: Literal)
    | CallExp(call: CallNode)
    | NullExp

  datatype CallNode = CallNode(callee: string, args: seq<ExpNode>)

  datatype CondNode =
    | BinNode(negate: bool, cop: CondOp, lc: CondNode, rc: CondNode)
    | ComparNode(negate: bool, cmp: CmpOp, le: ExpNode, re: ExpNode)

  datatype StmtNode =
    | BreakStmt
    | ContinueStmt
    | IfStmt(c: CondNode, thn: seq<StmtNode>)
    | IfElseStmt(c: CondNode, thn: seq<StmtNode>, els: seq<StmtNode>)
    | WhileStmt(c: CondNode, body: seq<StmtNode>)
    | AssignStmt(v: VarNode, e: ExpNode)
    | ReturnStmt(ret: Option<ExpNode>)
    | CallStmt(call: CallNode)
    | EchoStmt(e: ExpNode)
    | BlockStmt(body: seq<StmtNode>)
    | VarDefStmt(name: string, t: string)

  datatype Named = Named(name: string, t: string)

  datatype TypeDesc = AliasDesc(t: string) | RecordDesc(fields: seq<Named>) | ArrayDesc(inner: TypeDesc)

  datatype DefNode =
    | FuncNode(name: string, ret: string, params: seq<Named>, body: Option<seq<StmtNode>>)
    | GlobalNode(name: string, t: string)
    | TypeNode(name: string, desc: TypeDesc)

  // XML

  /** The names of tags; those of operators carry the operator. */
  datatype Tag =
    | Module | Var | Field | AccessedExp | FieldName | Indexed | IndexedExp | IndexExp
    | Unary(uop: UnaryOp) | Binary(bop: BinOp) | OperandA | OperandB
    | StringConstant | FloatConstant | IntConstant | CharConstant
    | ConditionalExp | ThenExp | ElseExp | ExpVar | TypeCast | Type | CastedExp | New | ArraySize | Null
    | Compar(cmp: CmpOp) | Bin(cop: CondOp) | Condition | Negated
    | Call | Callee | Parameters | Parameter
    | BreakTag | ContinueTag | If | Then | Else | While | Do | Assignment | Return | Echo | Block
    | Name | FunctionDefinition | ReturnType | VariableDeclaration | Record | Fields | TypeDescTag | Alias | Array
    | TypeDefinition

  datatype Payload = NoText | Text(s: string) | Real(r: real) | Number(n: int) | Character(c: char)

  datatype Xml = Node(tag: Tag, children: seq<Xml>) | Leaf(tag: Tag, text: Payload)

  datatype Token = Open(tag: Tag) | Close(tag: Tag) | Line(tag: Tag, text: Payload)

  function Tokens(x: Xml): seq<Token>
    decreases x, 0
  {
    match x
    case Node(tag, cs) => [Open(tag)] + Lines(cs) + [Close(tag)]
    case Leaf(tag, text) => [Line(tag, text)]
  }

  function Lines(xs: seq<Xml>): seq<Token>
    decreases xs, 1
  {
    if xs == [] then [] else Tokens(xs[0]) + Lines(xs[1..])
  }

  /** Reads trees up to the end or to a tag that closes what was opened before. */
  function Forest(ts: seq<Token>): (r: (seq<Xml>, seq<Token>))
    ensures |r.1| <= |ts|
    decreases |ts|
  {
    if ts == [] || ts[0].Close? then ([], ts)
    else if ts[0].Line? then
      var (xs, rest) := Forest(ts[1..]);
      ([Leaf(ts[0].tag, ts[0].text)] + xs, rest)
    else
      var (cs, rest) := Forest(ts[1..]);
      if rest != [] && rest[0] == Close(ts[0].tag) then
        var (xs, end) := Forest(rest[1..]);
        ([Node(ts[0].tag, cs)] + xs, end)
      else ([], ts)
  }

  lemma ReadsLine(tag: Tag, text: Payload, more: seq<Token>)
    ensures Forest([Line(tag, text)] + more) == ([Leaf(tag, text)] + Forest(more).0, Forest(more).1)
  {
    assert ([Line(tag, text)] + more)[1..] == more;
  }

  lemma ReadsNode(tag: Tag, cs: seq<Xml>, body: seq<Token>, more: seq<Token>)
    requires Forest(body) == (cs, [Close(tag)] + more)
    ensures Forest([Open(tag)] + body) == ([Node(tag, cs)] + Forest(more).0, Forest(more).1)
  {
    assert ([Open(tag)] + body)[1..] == body;
    assert ([Close(tag)] + more)[1..] == more;
  }

  lemma LinesOfNode(tag: Tag, cs: seq<Xml>, xs: seq<Xml>, rest: seq<Token>)
    ensures Lines([Node(tag, cs)] + xs) + rest == [Open(tag)] + (Lines(cs) + ([Close(tag)] + (Lines(xs) + rest)))
  {
    assert ([Node(tag, cs)] + xs)[1..] == xs;
  }

  lemma LinesOfLeaf(tag: Tag, text: Payload, xs: seq<Xml>, rest: seq<Token>)
    ensures Lines([Leaf(tag, text)] + xs) + rest == [Line(tag, text)] + (Lines(xs) + rest)
  {
    assert ([Leaf(tag, text)] + xs)[1..] == xs;
  }

  lemma {:induction false} ReadsForest(xs: seq<Xml>, rest: seq<Token>)
    requires rest == [] || rest[0].Close?
    ensures Forest(Lines(xs) + rest) == (xs, rest)
    decreases xs
  {
    if xs == [] {
      assert [] + rest == rest;
    } else {
      hide Forest, Lines;
      var more := Lines(xs[1..]) + rest;
      ReadsForest(xs[1..], rest);
      assert xs == [xs[0]] + xs[1..];
      match xs[0]
      case Leaf(tag, text) =>
        LinesOfLeaf(tag, text, xs[1..], rest);
        ReadsLine(tag, text, more);
      case Node(tag, cs) =>
        ReadsForest(cs, [Close(tag)] + more);
        LinesOfNode(tag, cs, xs[1..], rest);
        ReadsNode(tag, cs, Lines(cs) + ([Close(tag)] + more), more);
    }
  }

  /** Every closing tag closes the innermost open one; `open` has those that are open at the start. */
  predicate Balanced(ts: seq<Token>, open: seq<Tag>) {
    if ts == [] then open == []
    else match ts[0]
      case Open(tag) => Balanced(ts[1..], open + [tag])
      case Line(_, _) => Balanced(ts[1..], open)
      case Close(tag) => open != [] && open[|open| - 1] == tag && Balanced(ts[1..], open[..|open| - 1])
  }

  lemma {:induction false} LinesBalanced(xs: seq<Xml>, rest: seq<Token>, open: seq<Tag>)
    ensures Balanced(Lines(xs) + rest, open) <==> Balanced(rest, open)
    decreases xs
  {
    if xs == [] {
      assert [] + rest == rest;
    } else {
      var more := Lines(xs[1..]) + rest;
      LinesBalanced(xs[1..], rest, open);
      match xs[0]
      case Leaf(tag, text) =>
        assert Lines(xs) + rest == [Line(tag, text)] + more;
        assert ([Line(tag, text)] + more)[1..] == more;
      case Node(tag, cs) =>
        var inner := [Close(tag)] + more;
        LinesBalanced(cs, inner, open + [tag]);
        assert Lines(xs) + rest == [Open(tag)] + (Lines(cs) + inner);
        assert ([Open(tag)] + (Lines(cs) + inner))[1..] == Lines(cs) + inner;
        assert inner[1..] == more && (open + [tag])[..|open|] == open;
    }
  }

  // Trees to XML

  function OfLiteral(l: Literal): Xml {
    match l
    case StringLit(s) => Leaf(StringConstant, Text(s))
    case FloatLit(r) => Leaf(FloatConstant, Real(r))
    case IntegerLit(n) => Leaf(IntConstant, Number(n))
    case CharacterLit(c) => Leaf(CharConstant, Character(c))
  }

  function OfVar(v: VarNode): Xml
    decreases v, 0
  {
    match v
    case Direct(x) => Leaf(Tag.Var, Text(x))
    case FieldOf(e, f) => Node(Field, [Node(AccessedExp, [OfExp(e)]), Leaf(FieldName, Text(f))])
    case IndexOf(e, i) => Node(Indexed, [Node(IndexedExp, [OfExp(e)]), Node(IndexExp, [OfExp(i)])])
  }

  function OfExp(e: ExpNode): Xml
    decreases e, 0
  {
    match e
    case CondExp(c, a, b) => Node(ConditionalExp, [OfCond(c), Node(ThenExp, [OfExp(a)]), Node(ElseExp, [OfExp(b)])])
    case VarExp(v) => Node(ExpVar, [OfVar(v)])
    case UnaryExp(op, a) => Node(Tag.Unary(op), [OfExp(a)])
    case BinaryExp(op, l, r) => Node(Tag.Binary(op), [Node(OperandA, [OfExp(l)]), Node(OperandB, [OfExp(r)])])
    case CastExp(t, a) => Node(TypeCast, [Leaf(Type, Text(t)), Node(CastedExp, [OfExp(a)])])
    case NewExp(t, None) => Node(New, [Leaf(Type, Text(t))])
    case NewExp(t, Some(n)) => Node(New, [Leaf(Type, Text(t)), Node(ArraySize, [OfExp(n)])])
    case LitExp(l) => OfLiteral(l)
    case CallExp(call) => OfCall(call)
    case NullExp => Leaf(Null, NoText)
  }

  function OfCall(call: CallNode): Xml
    decreases call, 0
  {
    Node(Tag.Call, [Leaf(Callee, Text(call.callee))]
               + if call.args == [] then [] else [Node(Parameters, OfArgs(call.args))])
  }

  function OfArgs(es: seq<ExpNode>): (r: seq<Xml>)
    ensures |r| == |es|
    decreases es, 0
  {
    if es == [] then [] else [Node(Parameter, [OfExp(es[0])])] + OfArgs(es[1..])
  }

  function OfCond(c: CondNode): Xml
    decreases c, 0
  {
    var x := match c
      case BinNode(_, op, l, r) => Node(Bin(op), [OfCond(l), OfCond(r)])
      case ComparNode(_, op, l, r) => Node(Tag.Compar(op), [OfExp(l), OfExp(r)]);
    Node(Condition, [if c.negate then Node(Negated, [x]) else x])
  }

  function OfStmt(s: StmtNode): Xml
    decreases s, 0
  {
    match s
    case BreakStmt => Leaf(BreakTag, NoText)
    case ContinueStmt => Leaf(ContinueTag, NoText)
    case IfStmt(c, t) => Node(Tag.If, [OfCond(c), Node(Then, OfBlock(t))])
    case IfElseStmt(c, t, e) => Node(Tag.If, [OfCond(c), Node(Then, OfBlock(t)), Node(Else, OfBlock(e))])
    case WhileStmt(c, b) => Node(Tag.While, [OfCond(c), Node(Do, OfBlock(b))])
    case AssignStmt(v, e) => Node(Assignment, [OfVar(v), OfExp(e)])
    case ReturnStmt(None) => Node(Tag.Return, [])
    case ReturnStmt(Some(e)) => Node(Tag.Return, [OfExp(e)])
    case CallStmt(call) => OfCall(call)
    case EchoStmt(e) => Node(Tag.Echo, [OfExp(e)])
    case BlockStmt(b) => Node(Tag.Block, OfBlock(b))
    case VarDefStmt(x, t) => OfVarDef(x, t)
  }

  function OfBlock(ss: seq<StmtNode>): (r: seq<Xml>)
    ensures |r| == |ss|
    decreases ss, 0
  {
    if ss == [] then [] else [OfStmt(ss[0])] + OfBlock(ss[1..])
  }

  function OfVarDef(x: string, t: string): Xml {
    Node(VariableDeclaration, [Leaf(Name, Text(x)), Leaf(Type, Text(t))])
  }

  function OfParam(p: Named): Xml {
    Node(Parameter, [Leaf(Name, Text(p.name)), Leaf(Type, Text(p.t))])
  }

  function OfParams(ps: seq<Named>): (r: seq<Xml>)
    ensures |r| == |ps|
  {
    if ps == [] then [] else [OfParam(ps[0])] + OfParams(ps[1..])
  }

  /** Fields have their type first. */
  function OfFields(fs: seq<Named>): (r: seq<Xml>)
    ensures |r| == |fs|
  {
    if fs == [] then []
    else [Node(Field, [Leaf(Type, Text(fs[0].t)), Leaf(Name, Text(fs[0].name))])] + OfFields(fs[1..])
  }

  function OfTypeDesc(d: TypeDesc): Xml {
    Node(TypeDescTag, [match d
                       case AliasDesc(t) => Leaf(Alias, Text(t))
                       case RecordDesc(fs) => Node(Record, [Node(Fields, OfFields(fs))])
                       case ArrayDesc(inner) => Node(Array, [OfTypeDesc(inner)])])
  }

  function OfDef(d: DefNode): Xml {
    match d
    case GlobalNode(x, t) => OfVarDef(x, t)
    case TypeNode(x, desc) => Node(TypeDefinition, [Leaf(Name, Text(x)), OfTypeDesc(desc)])
    case FuncNode(x, ret, ps, body) =>
      Node(FunctionDefinition, [Leaf(Name, Text(x)), Leaf(ReturnType, Text(ret))]
                               + (if ps == [] then [] else [Node(Parameters, OfParams(ps))])
                               + (if body.None? then [] else [Node(Tag.Block, OfBlock(body.value))]))
  }

  function OfDefs(ds: seq<DefNode>): (r: seq<Xml>)
    ensures |r| == |ds|
  {
    if ds == [] then [] else [OfDef(ds[0])] + OfDefs(ds[1..])
  }

  function OfModule(ds: seq<DefNode>): Xml {
    Node(Module, OfDefs(ds))
  }

  /** What is dumped for a module. */
  function Dump(ds: seq<DefNode>): seq<Token> {
    Tokens(OfModule(ds))
  }

  lemma OneTree(x: Xml)
    ensures Lines([x]) == Tokens(x)
  {
    assert [x][1..] == [];
    assert Lines([]) == [];
  }

  /** The tags of a dump are balanced. */
  lemma DumpBalanced(ds: seq<DefNode>)
    ensures Balanced(Dump(ds), [])
  {
    OneTree(OfModule(ds));
    LinesBalanced([OfModule(ds)], [], []);
    assert Lines([OfModule(ds)]) + [] == Dump(ds);
  }
}
