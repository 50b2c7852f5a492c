/** The printer as it runs: lines that are appended, and an indentation that goes up and down with the tags. */
module XmlPrinter {
  import opened Ast
  import opened XmlDump
  import R = XmlRead

  class AstDumpContext {
    var indentLevel: nat
    var out: seq<Token>

    constructor ()
      ensures indentLevel == 0 && out == []
    {
      indentLevel, out := 0, [];
    }

    /** The tokens are appended, and the indentation is as before. */
    twostate predicate Dumped(ts: seq<Token>)
      reads this
    {
      out == old(out) + ts && indentLevel == old(indentLevel)
    }

    method Begin(tag: Tag)
      modifies this
      ensures out == old(out) + [Open(tag)] && indentLevel == old(indentLevel) + 1
    {
      out := out + [Open(tag)];
      indentLevel := indentLevel + 1;
    }

    method End(tag: Tag)
      requires indentLevel > 0
      modifies this
      ensures out == old(out) + [Close(tag)] && indentLevel == old(indentLevel) - 1
    {
      indentLevel := indentLevel - 1;
      out := out + [Close(tag)];
    }

    method DumpLine(tag: Tag, text: Payload)
      modifies this
      ensures Dumped(Tokens(Leaf(tag, text)))
    {
      out := out + [Line(tag, text)];
    }

    /** An expression between two tags. */
    method DumpInside(tag: Tag, e: ExpNode)
      modifies this
      ensures Dumped(Tokens(Node(tag, [OfExp(e)])))
      decreases e, 2
    {
      hide Tokens, OfExp;
      Begin(tag);
      XmlDumpExpNode(e);
      End(tag);
      One(old(out), tag, OfExp(e));
    }

    method XmlDumpVarNode(v: VarNode)
      modifies this
      ensures Dumped(Tokens(OfVar(v)))
      decreases v, 1
    {
      hide Tokens, OfExp;
      match v
      case Direct(x) => DumpLine(Tag.Var, Text(x));
      case FieldOf(e, f) =>
        Begin(Field);
        DumpInside(AccessedExp, e);
        DumpLine(FieldName, Text(f));
        End(Field);
        Two(old(out), Field, Node(AccessedExp, [OfExp(e)]), Leaf(FieldName, Text(f)));
      case IndexOf(e, i) =>
        Begin(Indexed);
        DumpInside(IndexedExp, e);
        DumpInside(IndexExp, i);
        End(Indexed);
        Two(old(out), Indexed, Node(IndexedExp, [OfExp(e)]), Node(IndexExp, [OfExp(i)]));
    }

    method XmlDumpBinop(op: BinOp, l: ExpNode, r: ExpNode)
      modifies this
      ensures Dumped(Tokens(OfExp(BinaryExp(op, l, r))))
      decreases BinaryExp(op, l, r), 0
    {
      hide Tokens;
      var tag := Tag.Binary(op);
      Begin(tag);
      DumpInside(OperandA, l);
      DumpInside(OperandB, r);
      End(tag);
      Two(old(out), tag, Node(OperandA, [OfExp(l)]), Node(OperandB, [OfExp(r)]));
    }

    method XmlDumpLiteral(l: Literal)
      modifies this
      ensures Dumped(Tokens(OfLiteral(l)))
    {
      match l
      case StringLit(s) => DumpLine(StringConstant, Text(s));
      case FloatLit(r) => DumpLine(FloatConstant, Real(r));
      case IntegerLit(n) => DumpLine(IntConstant, Number(n));
      case CharacterLit(c) => DumpLine(CharConstant, Character(c));
    }

    method XmlDumpExpNode(e: ExpNode)
      modifies this
      ensures Dumped(Tokens(OfExp(e)))
      decreases e, 1
    {
      hide Tokens, OfCond, OfVar, OfCall, OfLiteral;
      match e
      case CondExp(c, a, b) =>
        Begin(ConditionalExp);
        XmlDumpCondNode(c);
        DumpInside(ThenExp, a);
        DumpInside(ElseExp, b);
        End(ConditionalExp);
        Three(old(out), ConditionalExp, OfCond(c), Node(ThenExp, [OfExp(a)]), Node(ElseExp, [OfExp(b)]));
      case VarExp(v) =>
        Begin(ExpVar);
        XmlDumpVarNode(v);
        End(ExpVar);
        One(old(out), ExpVar, OfVar(v));
      case UnaryExp(op, a) => DumpInside(Tag.Unary(op), a);
      case BinaryExp(op, l, r) => XmlDumpBinop(op, l, r);
      case CastExp(t, a) =>
        Begin(TypeCast);
        DumpLine(Type, Text(t));
        DumpInside(CastedExp, a);
        End(TypeCast);
        Two(old(out), TypeCast, Leaf(Type, Text(t)), Node(CastedExp, [OfExp(a)]));
      case NewExp(t, size) =>
        Begin(New);
        DumpLine(Type, Text(t));
        if size.Some? {
          DumpInside(ArraySize, size.value);
          End(New);
          Two(old(out), New, Leaf(Type, Text(t)), Node(ArraySize, [OfExp(size.value)]));
        } else {
          End(New);
          One(old(out), New, Leaf(Type, Text(t)));
        }
      case LitExp(l) => XmlDumpLiteral(l);
      case CallExp(call) => XmlDumpCallNode(call);
      case NullExp => DumpLine(Null, NoText);
    }

    method XmlDumpCallNode(call: CallNode)
      modifies this
      ensures Dumped(Tokens(OfCall(call)))
      decreases call, 1
    {
      hide Tokens, Lines, OfExp;
      var callee := Leaf(Callee, Text(call.callee));
      Begin(Tag.Call);
      DumpLine(Callee, Text(call.callee));
      if call.args != [] {
        ghost var start := out;
        Begin(Parameters);
        var i := 0;
        NoLines();
        while i < |call.args|
          invariant 0 <= i <= |call.args| && indentLevel == old(indentLevel) + 2
          invariant out == start + [Open(Parameters)] + Lines(OfArgs(call.args)[..i])
        {
          DumpInside(Parameter, call.args[i]);
          ArgAt(call.args, i);
          OneMore(start + [Open(Parameters)], OfArgs(call.args), i);
          i := i + 1;
        }
        End(Parameters);
        assert OfArgs(call.args)[..i] == OfArgs(call.args);
        Many(start, Parameters, OfArgs(call.args));
        End(Tag.Call);
        Two(old(out), Tag.Call, callee, Node(Parameters, OfArgs(call.args)));
        assert [callee] + [Node(Parameters, OfArgs(call.args))] == [callee, Node(Parameters, OfArgs(call.args))];
      } else {
        End(Tag.Call);
        One(old(out), Tag.Call, callee);
        assert [callee] + [] == [callee];
      }
    }

    /** The tag for a negation is closed before the indentation goes down. */
    method XmlDumpCondNode(c: CondNode)
      modifies this
      ensures Dumped(Tokens(OfCond(c)))
      decreases c, 1
    {
      hide Tokens, OfExp;
      Begin(Condition);
      ghost var start := out;
      if c.negate {
        out := out + [Open(Negated)];
        indentLevel := indentLevel + 1;
      }
      ghost var inner := out;
      ghost var x;
      match c {
        case BinNode(_, op, l, r) =>
          Begin(Bin(op));
          XmlDumpCondNode(l);
          XmlDumpCondNode(r);
          End(Bin(op));
          Two(inner, Bin(op), OfCond(l), OfCond(r));
          x := Node(Bin(op), [OfCond(l), OfCond(r)]);
        case ComparNode(_, op, l, r) =>
          Begin(Tag.Compar(op));
          XmlDumpExpNode(l);
          XmlDumpExpNode(r);
          End(Tag.Compar(op));
          Two(inner, Tag.Compar(op), OfExp(l), OfExp(r));
          x := Node(Tag.Compar(op), [OfExp(l), OfExp(r)]);
      }
      if c.negate {
        out := out + [Close(Negated)];
        indentLevel := indentLevel - 1;
        One(start, Negated, x);
        x := Node(Negated, [x]);
      }
      End(Condition);
      One(old(out), Condition, x);
    }

    method XmlDumpStatementNode(s: StmtNode)
      modifies this
      ensures Dumped(Tokens(OfStmt(s)))
      decreases s, 1
    {
      hide Tokens, Lines, OfExp, OfCond, OfVar, OfCall, OfBlock, OfVarDef;
      match s
      case BreakStmt => DumpLine(BreakTag, NoText);
      case ContinueStmt => DumpLine(ContinueTag, NoText);
      case IfStmt(c, t) =>
        Begin(Tag.If);
        XmlDumpCondNode(c);
        DumpBlock(Then, t);
        End(Tag.If);
        Two(old(out), Tag.If, OfCond(c), Node(Then, OfBlock(t)));
      case IfElseStmt(c, t, e) =>
        Begin(Tag.If);
        XmlDumpCondNode(c);
        DumpBlock(Then, t);
        DumpBlock(Else, e);
        End(Tag.If);
        Three(old(out), Tag.If, OfCond(c), Node(Then, OfBlock(t)), Node(Else, OfBlock(e)));
      case WhileStmt(c, b) =>
        Begin(Tag.While);
        XmlDumpCondNode(c);
        DumpBlock(Do, b);
        End(Tag.While);
        Two(old(out), Tag.While, OfCond(c), Node(Do, OfBlock(b)));
      case AssignStmt(v, e) =>
        Begin(Assignment);
        XmlDumpVarNode(v);
        XmlDumpExpNode(e);
        End(Assignment);
        Two(old(out), Assignment, OfVar(v), OfExp(e));
      case ReturnStmt(ret) =>
        if ret.Some? {
          DumpInside(Tag.Return, ret.value);
        } else {
          Begin(Tag.Return);
          End(Tag.Return);
          NoLines();
          Many(old(out), Tag.Return, []);
        }
      case CallStmt(call) => XmlDumpCallNode(call);
      case EchoStmt(e) => DumpInside(Tag.Echo, e);
      case BlockStmt(b) => DumpBlock(Tag.Block, b);
      case VarDefStmt(x, t) => XmlDumpVarDefNode(x, t);
    }

    /** A block between two tags. */
    method DumpBlock(tag: Tag, b: seq<StmtNode>)
      modifies this
      ensures Dumped(Tokens(Node(tag, OfBlock(b))))
      decreases b, 3
    {
      hide Tokens, Lines, OfBlock;
      Begin(tag);
      XmlDumpBlockInline(b);
      End(tag);
      Many(old(out), tag, OfBlock(b));
    }

    method XmlDumpBlockInline(b: seq<StmtNode>)
      modifies this
      ensures Dumped(Lines(OfBlock(b)))
      decreases b, 2
    {
      hide Tokens, Lines, OfStmt;
      var i := 0;
      NoLines();
      while i < |b|
        invariant 0 <= i <= |b| && indentLevel == old(indentLevel)
        invariant out == old(out) + Lines(OfBlock(b)[..i])
      {
        XmlDumpStatementNode(b[i]);
        StmtAt(b, i);
        OneMore(old(out), OfBlock(b), i);
        i := i + 1;
      }
      assert OfBlock(b)[..i] == OfBlock(b);
    }

    method XmlDumpVarDefNode(x: string, t: string)
      modifies this
      ensures Dumped(Tokens(OfVarDef(x, t)))
    {
      hide Tokens;
      Begin(VariableDeclaration);
      DumpLine(Name, Text(x));
      DumpLine(Type, Text(t));
      End(VariableDeclaration);
      Two(old(out), VariableDeclaration, Leaf(Name, Text(x)), Leaf(Type, Text(t)));
    }

    method XmlDumpParam(p: Named)
      modifies this
      ensures Dumped(Tokens(OfParam(p)))
    {
      hide Tokens;
      Begin(Parameter);
      DumpLine(Name, Text(p.name));
      DumpLine(Type, Text(p.t));
      End(Parameter);
      Two(old(out), Parameter, Leaf(Name, Text(p.name)), Leaf(Type, Text(p.t)));
    }

    method XmlDumpParams(ps: seq<Named>)
      modifies this
      ensures Dumped(Tokens(Node(Parameters, OfParams(ps))))
    {
      hide Tokens, Lines, OfParam;
      Begin(Parameters);
      var i := 0;
      NoLines();
      while i < |ps|
        invariant 0 <= i <= |ps| && indentLevel == old(indentLevel) + 1
        invariant out == old(out) + [Open(Parameters)] + Lines(OfParams(ps)[..i])
      {
        XmlDumpParam(ps[i]);
        ParamAt(ps, i);
        OneMore(old(out) + [Open(Parameters)], OfParams(ps), i);
        i := i + 1;
      }
      End(Parameters);
      assert OfParams(ps)[..i] == OfParams(ps);
      Many(old(out), Parameters, OfParams(ps));
    }

    method XmlDumpFuncNode(d: DefNode)
      requires d.FuncNode?
      modifies this
      ensures Dumped(Tokens(OfDef(d)))
    {
      hide Tokens, Lines, OfParams, OfBlock;
      ghost var xs := [Leaf(Name, Text(d.name)), Leaf(ReturnType, Text(d.ret))];
      Begin(FunctionDefinition);
      DumpLine(Name, Text(d.name));
      DumpLine(ReturnType, Text(d.ret));
      ghost var start := old(out) + [Open(FunctionDefinition)];
      Pair(start, xs[0], xs[1]);
      if d.params != [] {
        XmlDumpParams(d.params);
        Appended(start, xs, Node(Parameters, OfParams(d.params)));
        xs := xs + [Node(Parameters, OfParams(d.params))];
      } else {
        assert xs + [] == xs;
      }
      if d.body.Some? {
        DumpBlock(Tag.Block, d.body.value);
        Appended(start, xs, Node(Tag.Block, OfBlock(d.body.value)));
        xs := xs + [Node(Tag.Block, OfBlock(d.body.value))];
      } else {
        assert xs + [] == xs;
      }
      End(FunctionDefinition);
      Many(old(out), FunctionDefinition, xs);
    }

    method XmlDumpRecord(fs: seq<Named>)
      modifies this
      ensures Dumped(Tokens(Node(Record, [Node(Fields, OfFields(fs))])))
    {
      hide Tokens, Lines;
      Begin(Record);
      ghost var start := out;
      Begin(Fields);
      var i := 0;
      NoLines();
      while i < |fs|
        invariant 0 <= i <= |fs| && indentLevel == old(indentLevel) + 2
        invariant out == start + [Open(Fields)] + Lines(OfFields(fs)[..i])
      {
        ghost var before := out;
        Begin(Field);
        DumpLine(Type, Text(fs[i].t));
        DumpLine(Name, Text(fs[i].name));
        End(Field);
        Two(before, Field, Leaf(Type, Text(fs[i].t)), Leaf(Name, Text(fs[i].name)));
        FieldAt(fs, i);
        OneMore(start + [Open(Fields)], OfFields(fs), i);
        i := i + 1;
      }
      End(Fields);
      assert OfFields(fs)[..i] == OfFields(fs);
      Many(start, Fields, OfFields(fs));
      End(Record);
      One(old(out), Record, Node(Fields, OfFields(fs)));
    }

    method XmlDumpTypedesc(d: TypeDesc)
      modifies this
      ensures Dumped(Tokens(OfTypeDesc(d)))
      decreases d
    {
      hide Tokens, OfFields;
      Begin(TypeDescTag);
      ghost var start := out;
      match d {
        case AliasDesc(t) =>
          DumpLine(Alias, Text(t));
          End(TypeDescTag);
          One(old(out), TypeDescTag, Leaf(Alias, Text(t)));
        case RecordDesc(fs) =>
          XmlDumpRecord(fs);
          End(TypeDescTag);
          One(old(out), TypeDescTag, Node(Record, [Node(Fields, OfFields(fs))]));
        case ArrayDesc(inner) =>
          Begin(Array);
          XmlDumpTypedesc(inner);
          End(Array);
          One(start, Array, OfTypeDesc(inner));
          End(TypeDescTag);
          One(old(out), TypeDescTag, Node(Array, [OfTypeDesc(inner)]));
      }
    }

    method XmlDumpDefNode(d: DefNode)
      modifies this
      ensures Dumped(Tokens(OfDef(d)))
    {
      hide Tokens, OfTypeDesc, OfVarDef;
      match d
      case FuncNode(_, _, _, _) => XmlDumpFuncNode(d);
      case GlobalNode(x, t) => XmlDumpVarDefNode(x, t);
      case TypeNode(x, desc) =>
        Begin(TypeDefinition);
        DumpLine(Name, Text(x));
        XmlDumpTypedesc(desc);
        End(TypeDefinition);
        Two(old(out), TypeDefinition, Leaf(Name, Text(x)), OfTypeDesc(desc));
    }

    /** The whole module; what it appends is balanced and determines the module. */
    method AstDumpXml(ds: seq<DefNode>)
      modifies this
      ensures Dumped(Dump(ds))
      ensures Balanced(Dump(ds), [])
      ensures R.ReadDump(Dump(ds)) == R.Tree(ds)
    {
      hide Tokens, Lines, OfDef, Balanced, R.ReadDump;
      Begin(Module);
      var i := 0;
      NoLines();
      while i < |ds|
        invariant 0 <= i <= |ds| && indentLevel == old(indentLevel) + 1
        invariant out == old(out) + [Open(Module)] + Lines(OfDefs(ds)[..i])
      {
        XmlDumpDefNode(ds[i]);
        DefAt(ds, i);
        OneMore(old(out) + [Open(Module)], OfDefs(ds), i);
        i := i + 1;
      }
      End(Module);
      assert OfDefs(ds)[..i] == OfDefs(ds);
      Many(old(out), Module, OfDefs(ds));
      DumpBalanced(ds);
      R.ReadsDump(ds);
    }
  }

  // Tokens of nodes, put together piece by piece

  lemma One(start: seq<Token>, tag: Tag, x: Xml)
    ensures start + [Open(tag)] + Tokens(x) + [Close(tag)] == start + Tokens(Node(tag, [x]))
  {
    OneTree(x);
    Many(start, tag, [x]);
  }

  lemma Two(start: seq<Token>, tag: Tag, x: Xml, y: Xml)
    ensures start + [Open(tag)] + Tokens(x) + Tokens(y) + [Close(tag)] == start + Tokens(Node(tag, [x, y]))
  {
    hide Tokens;
    Pair(start + [Open(tag)], x, y);
    Many(start, tag, [x, y]);
  }

  lemma Three(start: seq<Token>, tag: Tag, x: Xml, y: Xml, z: Xml)
    ensures start + [Open(tag)] + Tokens(x) + Tokens(y) + Tokens(z) + [Close(tag)]
         == start + Tokens(Node(tag, [x, y, z]))
  {
    hide Tokens;
    Pair(start + [Open(tag)], x, y);
    Appended(start + [Open(tag)], [x, y], z);
    assert [x, y] + [z] == [x, y, z];
    Many(start, tag, [x, y, z]);
  }

  lemma Many(start: seq<Token>, tag: Tag, xs: seq<Xml>)
    ensures start + [Open(tag)] + Lines(xs) + [Close(tag)] == start + Tokens(Node(tag, xs))
  {
    hide Lines;
  }

  lemma Pair(start: seq<Token>, x: Xml, y: Xml)
    ensures start + Tokens(x) + Tokens(y) == start + Lines([x, y])
  {
    hide Tokens;
    OneTree(y);
    assert [x, y][1..] == [y];
  }

  lemma NoLines()
    ensures forall xs: seq<Xml> :: Lines(xs[..0]) == []
    ensures forall start: seq<Token> :: start + [] == start
    ensures Lines([]) == []
  {
  }

  lemma {:induction false} LinesCat(a: seq<Xml>, b: seq<Xml>)
    ensures Lines(a + b) == Lines(a) + Lines(b)
  {
    hide Tokens;
    if a == [] {
      assert a + b == b;
    } else {
      assert (a + b)[1..] == a[1..] + b;
      LinesCat(a[1..], b);
    }
  }

  lemma Appended(start: seq<Token>, xs: seq<Xml>, x: Xml)
    ensures start + Lines(xs) + Tokens(x) == start + Lines(xs + [x])
  {
    hide Tokens, Lines;
    LinesCat(xs, [x]);
    OneTree(x);
  }

  lemma OneMore(start: seq<Token>, xs: seq<Xml>, i: nat)
    requires i < |xs|
    ensures start + Lines(xs[..i]) + Tokens(xs[i]) == start + Lines(xs[..i + 1])
  {
    hide Tokens, Lines;
    Appended(start, xs[..i], xs[i]);
    assert xs[..i] + [xs[i]] == xs[..i + 1];
  }

  lemma {:induction false} ArgAt(es: seq<ExpNode>, i: nat)
    requires i < |es|
    ensures OfArgs(es)[i] == Node(Parameter, [OfExp(es[i])])
  {
    if i > 0 {
      ArgAt(es[1..], i - 1);
    }
  }

  lemma {:induction false} StmtAt(b: seq<StmtNode>, i: nat)
    requires i < |b|
    ensures OfBlock(b)[i] == OfStmt(b[i])
  {
    if i > 0 {
      StmtAt(b[1..], i - 1);
    }
  }

  lemma {:induction false} ParamAt(ps: seq<Named>, i: nat)
    requires i < |ps|
    ensures OfParams(ps)[i] == OfParam(ps[i])
  {
    if i > 0 {
      ParamAt(ps[1..], i - 1);
    }
  }

  lemma {:induction false} FieldAt(fs: seq<Named>, i: nat)
    requires i < |fs|
    ensures OfFields(fs)[i] == Node(Field, [Leaf(Type, Text(fs[i].t)), Leaf(Name, Text(fs[i].name))])
  {
    if i > 0 {
      FieldAt(fs[1..], i - 1);
    }
  }

  lemma {:induction false} DefAt(ds: seq<DefNode>, i: nat)
    requires i < |ds|
    ensures OfDefs(ds)[i] == OfDef(ds[i])
  {
    if i > 0 {
      DefAt(ds[1..], i - 1);
    }
  }
}
