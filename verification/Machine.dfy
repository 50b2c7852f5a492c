/** The target: labels, branches, temporaries and stack cells, run one instruction at a time. */
module Machine {
  import opened Ints
  import opened Ast
  import Source

  datatype Operand =
    | Temp(id: nat)
    | Lit(n: int)
    | Arg(i: nat)
    | Global(name: string)
    | NoValue

  datatype CallArg = CallArg(w: nat, v: Operand)
  datatype EchoKind = IntegerKind | CharKind

  datatype Instr =
    | Label(l: nat)
    | Br(l: nat)
    | CondBr(v: Operand, t: nat, f: nat)
    | Alloca(dst: nat, w: nat)
    | Load(dst: nat, w: nat, addr: Operand)
    | Store(w: nat, addr: Operand, v: Operand)
    | Arith(dst: nat, op: BinOp, w: nat, a: Operand, b: Operand)
    | Cmp(dst: nat, cmp: CmpOp, w: nat, a: Operand, b: Operand)
    | Sext(dst: nat, w: nat, a: Operand, to: nat)
    | Trunc(dst: nat, w: nat, a: Operand, to: nat)
    | Phi(dst: nat, w: nat, la: nat, a: Operand, lb: nat, b: Operand)
    | CallExp(dst: nat, w: nat, fn: string, args: seq<CallArg>)
    | CallVoid(fn: string, args: seq<CallArg>)
    | EchoRt(kind: EchoKind, v: Operand)
    | InitRt
    | Ret(w: nat, v: Operand)
    | RetVoid
    | Unreachable

  /** A `w`-bit pattern, the address of a stack cell, a comparison result, or a cell nothing was stored in. */
  datatype MVal = Bits(w: nat, b: nat) | Addr(loc: nat) | Flag(on: bool) | Undef

  /** One function activation. `cur` and `prev` are the labels of the running block and of the one that
      branched to it; -1 stands for the entry block. */
  datatype Frame = Frame(fn: string, pc: nat, cur: int, prev: int,
                         temps: map<nat, MVal>, mem: seq<MVal>, args: seq<MVal>)
  datatype Stack = Bottom | Under(frame: Frame, rest: Stack)
  datatype State = State(top: Frame, rest: Stack, vars: map<string, MVal>, events: seq<Source.Event>,
                         answers: seq<int>)

  datatype Status =
    | Running(s: State)
    | Finished(ret: Option<MVal>, vars: map<string, MVal>, events: seq<Source.Event>)
    | Trapped(events: seq<Source.Event>)
    | Stuck

  type Code = seq<Instr>
  type MProgram = map<string, Code>

  /** Where a label is placed; the length of the code if it is placed nowhere. */
  function LabelPos(code: Code, l: nat): (p: nat)
    ensures p <= |code|
    ensures p < |code| ==> code[p] == Label(l)
  {
    if code == [] then 0
    else if code[0] == Label(l) then 0
    else LabelPos(code[1..], l) + 1
  }

  /** The `w`-bit pattern an operand stands for. */
  function BitsOf(f: Frame, w: nat, v: Operand): (r: Option<MVal>)
    ensures r.Some? ==> r.value.Bits? && r.value.w == w
  {
    match v
    case Temp(id) => if id in f.temps && f.temps[id].Bits? && f.temps[id].w == w then Some(f.temps[id]) else None
    case Lit(n) => Some(Bits(w, ToBits(w, n)))
    case Arg(i) => if i < |f.args| && f.args[i].Bits? && f.args[i].w == w then Some(f.args[i]) else None
    case _ => None
  }

  function ArgBits(f: Frame, args: seq<CallArg>): Option<seq<MVal>> {
    if args == [] then Some([])
    else
      var v := BitsOf(f, args[0].w, args[0].v);
      var vs := ArgBits(f, args[1..]);
      if v.None? || vs.None? then None else Some([v.value] + vs.value)
  }

  function ReadCell(s: State, addr: Operand): Option<MVal> {
    match addr
    case Temp(id) =>
      if id in s.top.temps && s.top.temps[id].Addr? && s.top.temps[id].loc < |s.top.mem|
      then Some(s.top.mem[s.top.temps[id].loc]) else None
    case Global(x) => if x in s.vars then Some(s.vars[x]) else None
    case _ => None
  }

  function WriteCell(s: State, addr: Operand, v: MVal): Option<State> {
    match addr
    case Temp(id) =>
      if id in s.top.temps && s.top.temps[id].Addr? && s.top.temps[id].loc < |s.top.mem|
      then Some(s.(top := s.top.(mem := s.top.mem[s.top.temps[id].loc := v]))) else None
    case Global(x) => if x in s.vars then Some(s.(vars := s.vars[x := v])) else None
    case _ => None
  }

  function BitFnOf(op: BinOp): BitFn {
    if op.BitAnd? then AndFn else if op.BitOr? then OrFn else XorFn
  }

  /** The instruction on bit patterns; none is undefined behaviour. */
  function ArithBits(op: BinOp, w: nat, a: nat, b: nat): Option<nat> {
    var m := Pow2(w);
    match op
    case Add => Some((a + b) % m)
    case Sub => Some((a - b) % m)
    case Mul => Some((a * b) % m)
    case Div =>
      var x, y := Signed(w, a), Signed(w, b);
      if y == 0 || (w > 0 && x == -(Pow2(w - 1) as int) && y == -1) then None else Some(ToBits(w, Source.Quot(x, y)))
    case Mod =>
      var x, y := Signed(w, a), Signed(w, b);
      if y == 0 || (w > 0 && x == -(Pow2(w - 1) as int) && y == -1) then None else Some(ToBits(w, Source.Rem(x, y)))
    case Shl => if b < w then Some((a * Pow2(b)) % m) else None
    case Shr => if b < w then Some(a / Pow2(b)) else None
    case _ => Some(BitwiseBits(BitFnOf(op), w, a, b))
  }

  /** The place of a pattern in the signed order: the sign bit turned over, the smallest number comes first. */
  function Biased(w: nat, b: nat): nat {
    if w == 0 then b else (b + Pow2(w - 1)) % Pow2(w)
  }

  /** `icmp` with eq, ne, sgt, sge, slt or sle. */
  predicate CmpBits(op: CmpOp, w: nat, a: nat, b: nat) {
    match op
    case Eq => a == b
    case Ne => a != b
    case Gt => Biased(w, a) > Biased(w, b)
    case Ge => Biased(w, a) >= Biased(w, b)
    case Le => Biased(w, a) <= Biased(w, b)
    case Lt => Biased(w, a) < Biased(w, b)
  }

  function Next(s: State): State {
    s.(top := s.top.(pc := s.top.pc + 1))
  }

  /** Defines a temporary and moves on. */
  function Define(s: State, dst: nat, v: MVal): Status {
    Running(Next(s.(top := s.top.(temps := s.top.temps[dst := v]))))
  }

  /** Enters the block that starts at a label. */
  function Jump(code: Code, s: State, l: nat): Status {
    var p := LabelPos(code, l);
    if p == |code| then Stuck
    else Running(s.(top := s.top.(pc := p + 1, prev := s.top.cur, cur := l)))
  }

  function Enter(s: State, f: string, args: seq<CallArg>): Status {
    var vs := ArgBits(s.top, args);
    if vs.None? then Stuck
    else Running(s.(top := Frame(f, 0, -1, -1, map[], [], vs.value), rest := Under(s.top, s.rest)))
  }

  function Numbers(vs: seq<MVal>): seq<int> {
    seq(|vs|, i requires 0 <= i < |vs| => if vs[i].Bits? then Signed(vs[i].w, vs[i].b) else 0)
  }

  /** A call that leaves the module: an event, and an answer that is taken. */
  function Outside(s: State, f: string, args: seq<CallArg>): (r: Status)
    ensures r.Running? ==> s.answers != []
  {
    var vs := ArgBits(s.top, args);
    if vs.None? then Stuck
    else
      var events := s.events + [Source.ExternCall(f, Numbers(vs.value))];
      if s.answers == [] then Trapped(events)
      else Running(s.(events := events, answers := s.answers[1..]))
  }

  /** Goes back to the call instruction of the caller and past it. */
  function Leave(p: MProgram, s: State, v: Option<MVal>): Status {
    match s.rest
    case Bottom => Finished(v, s.vars, s.events)
    case Under(fr, rest) =>
      var back := s.(top := fr, rest := rest);
      if fr.fn !in p || fr.pc >= |p[fr.fn]| then Stuck
      else
        match p[fr.fn][fr.pc]
        case CallExp(dst, w, _, _) => if v.Some? then Define(back, dst, v.value) else Stuck
        case CallVoid(_, _) => Running(Next(back))
        case _ => Stuck
  }

  /** One instruction. A label is never run: falling into one is an unterminated block. */
  function Step(p: MProgram, s: State): Status {
    var f := s.top;
    if f.fn !in p || f.pc >= |p[f.fn]| then Stuck
    else
      var code := p[f.fn];
      match code[f.pc]
      case Label(_) => Stuck
      case Br(l) => Jump(code, s, l)
      case CondBr(v, t, e) =>
        if v.Temp? && v.id in f.temps && f.temps[v.id].Flag?
        then Jump(code, s, if f.temps[v.id].on then t else e) else Stuck
      case Alloca(dst, w) =>
        Define(s.(top := f.(mem := f.mem + [Undef])), dst, Addr(|f.mem|))
      case Load(dst, w, addr) =>
        var c := ReadCell(s, addr);
        if c.Some? && c.value.Bits? && c.value.w == w then Define(s, dst, c.value) else Stuck
      case Store(w, addr, v) =>
        var b := BitsOf(f, w, v);
        if b.None? then Stuck
        else
          var t := WriteCell(s, addr, b.value);
          if t.None? then Stuck else Running(Next(t.value))
      case Arith(dst, op, w, a, b) =>
        var x, y := BitsOf(f, w, a), BitsOf(f, w, b);
        if x.None? || y.None? then Stuck
        else
          var r := ArithBits(op, w, x.value.b, y.value.b);
          if r.None? then Trapped(s.events) else Define(s, dst, Bits(w, r.value))
      case Cmp(dst, op, w, a, b) =>
        var x, y := BitsOf(f, w, a), BitsOf(f, w, b);
        if x.None? || y.None? then Stuck
        else Define(s, dst, Flag(CmpBits(op, w, x.value.b, y.value.b)))
      case Sext(dst, w, a, to) =>
        var x := BitsOf(f, w, a);
        if x.None? || to <= w then Stuck
        else
          var n := SignExtend(w, to, x.value.b);
          Define(s, dst, Bits(to, if n < 0 then 0 else n))
      case Trunc(dst, w, a, to) =>
        var x := BitsOf(f, w, a);
        if x.None? || w <= to then Stuck
        else Define(s, dst, Bits(to, x.value.b % Pow2(to)))
      case Phi(dst, w, la, a, lb, b) =>
        var x := if f.prev == la then BitsOf(f, w, a) else if f.prev == lb then BitsOf(f, w, b) else None;
        if x.None? then Stuck else Define(s, dst, x.value)
      case CallExp(dst, w, fn, args) =>
        if fn in p then Enter(s, fn, args)
        else
          var t := Outside(s, fn, args);
          if t.Running? then Define(t.s, dst, Bits(w, ToBits(w, s.answers[0]))) else t
      case CallVoid(fn, args) =>
        if fn in p then Enter(s, fn, args)
        else
          var t := Outside(s, fn, args);
          if t.Running? then Running(Next(t.s)) else t
      case EchoRt(IntegerKind, v) =>
        var x := BitsOf(f, 64, v);
        if x.None? then Stuck
        else Running(Next(s.(events := s.events + [Source.EchoInteger(Signed(64, x.value.b))])))
      case EchoRt(CharKind, v) =>
        var x := BitsOf(f, 8, v);
        if x.None? then Stuck
        else Running(Next(s.(events := s.events + [Source.EchoChar(Signed(8, x.value.b))])))
      case InitRt => Running(Next(s))
      case Ret(w, v) =>
        var x := BitsOf(f, w, v);
        if x.None? then Stuck else Leave(p, s, x)
      case RetVoid => Leave(p, s, None)
      case Unreachable => Stuck
  }

  function Run(p: MProgram, st: Status, n: nat): Status
    decreases n
  {
    if n == 0 || !st.Running? then st else Run(p, Step(p, st.s), n - 1)
  }

  lemma {:induction false} RunAdd(p: MProgram, st: Status, m: nat, n: nat)
    ensures Run(p, st, m + n) == Run(p, Run(p, st, m), n)
    decreases m
  {
    hide Step;
    if m > 0 && st.Running? {
      RunAdd(p, Step(p, st.s), m - 1, n);
    }
  }

  /** A stopped machine stays as it is. */
  lemma {:induction false} RunStopped(p: MProgram, st: Status, n: nat)
    requires !st.Running?
    ensures Run(p, st, n) == st
  {
  }
}
