/** The effect of the instructions, one by one. */
module Stepping {
  import opened Ints
  import opened Ast
  import opened Machine
  import opened Shape
  import opened Related
  import S = Source

  /** The instruction the machine is about to run. */
  predicate Current(mp: MProgram, s: State, i: Instr) {
    s.top.fn in mp && s.top.pc < |mp[s.top.fn]| && mp[s.top.fn][s.top.pc] == i
  }

  function GoTo(s: State, p: nat, l: nat): State {
    s.(top := s.top.(pc := p + 1, prev := s.top.cur, cur := l))
  }

  function Defined(s: State, dst: nat, v: MVal): State {
    s.(top := s.top.(temps := s.top.temps[dst := v], pc := s.top.pc + 1))
  }

  lemma StepBr(mp: MProgram, s: State, l: nat, p: nat)
    requires Current(mp, s, Br(l)) && UniqueLabels(mp[s.top.fn])
    requires p < |mp[s.top.fn]| && mp[s.top.fn][p] == Label(l)
    ensures Step(mp, s) == Running(GoTo(s, p, l))
  {
    LabelPosIs(mp[s.top.fn], l, p);
  }

  lemma StepCondBr(mp: MProgram, s: State, id: nat, t: nat, e: nat, b: bool)
    requires Current(mp, s, CondBr(Temp(id), t, e))
    requires id in s.top.temps && s.top.temps[id] == Flag(b)
    requires Placed(mp[s.top.fn], if b then t else e)
    ensures var l := if b then t else e; Step(mp, s) == Running(GoTo(s, LabelPos(mp[s.top.fn], l), l))
  {
  }

  lemma StepArith(mp: MProgram, s: State, i: Instr, a: int, b: int)
    requires i.Arith? && Current(mp, s, i)
    requires BitsOf(s.top, i.w, i.a) == Some(Bits(i.w, ToBits(i.w, a)))
    requires BitsOf(s.top, i.w, i.b) == Some(Bits(i.w, ToBits(i.w, b)))
    ensures var r := ArithBits(i.op, i.w, ToBits(i.w, a), ToBits(i.w, b));
            Step(mp, s) == if r.None? then Trapped(s.events) else Running(Defined(s, i.dst, Bits(i.w, r.value)))
  {
    hide ArithBits, BitsOf, ToBits;
  }

  lemma StepCmp(mp: MProgram, s: State, i: Instr, a: int, b: int)
    requires i.Cmp? && Current(mp, s, i)
    requires BitsOf(s.top, i.w, i.a) == Some(Bits(i.w, ToBits(i.w, a)))
    requires BitsOf(s.top, i.w, i.b) == Some(Bits(i.w, ToBits(i.w, b)))
    ensures Step(mp, s) == Running(Defined(s, i.dst, Flag(CmpBits(i.cmp, i.w, ToBits(i.w, a), ToBits(i.w, b)))))
  {
    hide CmpBits, BitsOf, ToBits;
  }

  lemma StepLoad(mp: MProgram, s: State, i: Instr, v: MVal)
    requires i.Load? && Current(mp, s, i)
    requires ReadCell(s, i.addr) == Some(v) && v.Bits? && v.w == i.w
    ensures Step(mp, s) == Running(Defined(s, i.dst, v))
  {
    hide ReadCell;
  }

  lemma StepStore(mp: MProgram, s: State, i: Instr, v: MVal, t: State)
    requires i.Store? && Current(mp, s, i)
    requires BitsOf(s.top, i.w, i.v) == Some(v) && WriteCell(s, i.addr, v) == Some(t)
    ensures Step(mp, s) == Running(Next(t))
  {
    hide BitsOf, WriteCell;
  }

  lemma StepPhi(mp: MProgram, s: State, i: Instr, v: MVal)
    requires i.Phi? && Current(mp, s, i)
    requires s.top.prev == i.la || (s.top.prev == i.lb && i.la != i.lb)
    requires BitsOf(s.top, i.w, if s.top.prev == i.la then i.a else i.b) == Some(v)
    ensures Step(mp, s) == Running(Defined(s, i.dst, v))
  {
    hide BitsOf;
  }

  lemma StepEcho(mp: MProgram, s: State, i: Instr, v: S.Value)
    requires i.EchoRt? && Current(mp, s, i)
    requires v.ty == (if i.kind.IntegerKind? then Long else Char)
    requires BitsOf(s.top, Width(v.ty), i.v) == Some(Rep(v))
    ensures Step(mp, s) == Running(Next(s.(events := s.events + [S.EchoOf(v)])))
  {
    hide BitsOf, ToBits, Signed;
    SignedOfBits(Width(v.ty), v.n);
  }

  /** The frame of a function that starts with some arguments. */
  function Fresh0(f: string, args: seq<MVal>): Frame {
    Frame(f, 0, -1, -1, map[], [], args)
  }

  lemma StepCall(mp: MProgram, s: State, f: string, args: seq<CallArg>, vs: seq<MVal>)
    requires Current(mp, s, CallVoid(f, args)) || exists d, w :: Current(mp, s, CallExp(d, w, f, args))
    requires ArgBits(s.top, args) == Some(vs) && f in mp
    ensures Step(mp, s) == Running(s.(top := Fresh0(f, vs), rest := Under(s.top, s.rest)))
  {
    hide ArgBits;
  }

  lemma NumbersAre(vals: seq<S.Value>)
    ensures Numbers(Reps(vals)) == S.Numbers(vals)
  {
    hide ToBits, Signed;
    forall i | 0 <= i < |vals| ensures Numbers(Reps(vals))[i] == vals[i].n {
      SignedOfBits(Width(vals[i].ty), vals[i].n);
    }
  }

  /** A call that leaves the module, and what it leaves behind. */
  lemma StepOutside(mp: MProgram, s: State, i: Instr, f: string, args: seq<CallArg>, vals: seq<S.Value>)
    requires Current(mp, s, i) && f !in mp
    requires i == CallVoid(f, args) || (i.CallExp? && i.fn == f && i.args == args)
    requires ArgBits(s.top, args) == Some(Reps(vals))
    ensures var events := s.events + [S.ExternCall(f, S.Numbers(vals))];
            Step(mp, s)
            == if s.answers == [] then Trapped(events)
               else
                 var t := s.(events := events, answers := s.answers[1..]);
                 Running(if i.CallExp? then Defined(t, i.dst, Bits(i.w, ToBits(i.w, s.answers[0]))) else Next(t))
  {
    hide ArgBits, ToBits, Numbers, S.Numbers, Reps;
    NumbersAre(vals);
  }

  /** Where the caller goes on after a return. */
  function Resumed(mp: MProgram, fr: Frame, rest: Stack, s: State, v: Option<MVal>): Option<State> {
    var back := s.(top := fr, rest := rest);
    if fr.fn in mp && fr.pc < |mp[fr.fn]| then
      match mp[fr.fn][fr.pc]
      case CallExp(dst, _, _, _) => if v.Some? then Some(Defined(back, dst, v.value)) else None
      case CallVoid(_, _) => Some(Next(back))
      case _ => None
    else None
  }

  lemma StepRet(mp: MProgram, s: State, w: nat, op: Operand, v: MVal, fr: Frame, rest: Stack)
    requires Current(mp, s, Ret(w, op)) && BitsOf(s.top, w, op) == Some(v)
    requires s.rest == Under(fr, rest) && Resumed(mp, fr, rest, s, Some(v)).Some?
    ensures Step(mp, s) == Running(Resumed(mp, fr, rest, s, Some(v)).value)
  {
    hide BitsOf;
  }

  lemma StepRetVoid(mp: MProgram, s: State, fr: Frame, rest: Stack)
    requires Current(mp, s, RetVoid)
    requires s.rest == Under(fr, rest) && Resumed(mp, fr, rest, s, None).Some?
    ensures Step(mp, s) == Running(Resumed(mp, fr, rest, s, None).value)
  {
  }
}
