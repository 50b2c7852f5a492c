/** How a machine state stands for a state of the source program. */
module Related {
  import opened Ints
  import opened Ast
  import opened Machine
  import opened Codegen
  import opened Shape
  import S = Source

  function Rep(v: S.Value): MVal {
    Bits(Width(v.ty), ToBits(Width(v.ty), v.n))
  }

  function Reps(vs: seq<S.Value>): seq<MVal> {
    seq(|vs|, i requires 0 <= i < |vs| => Rep(vs[i]))
  }

  function RepVars(m: map<string, S.Value>): map<string, MVal> {
    map x | x in m :: Rep(m[x])
  }

  // Scopes and the stack of locals

  function Flatten(env: S.Env): seq<S.Binding> {
    if env == [] then [] else Flatten(env[..|env| - 1]) + env[|env| - 1]
  }

  predicate DistinctScope(s: S.Scope) {
    forall i, j :: 0 <= i < j < |s| ==> s[i].name != s[j].name
  }

  predicate EnvOk(env: S.Env, size: nat) {
    && (forall k :: 0 <= k < |env| ==> DistinctScope(env[k]))
    && (forall i :: 0 <= i < |Flatten(env)| ==> Flatten(env)[i].loc < size)
  }

  /** The last binding added under a name. */
  function FindLast(flat: seq<S.Binding>, x: string): Option<nat> {
    if flat == [] then None
    else if flat[|flat| - 1].name == x then Some(flat[|flat| - 1].loc)
    else FindLast(flat[..|flat| - 1], x)
  }

  lemma {:induction false} FindLastCat(a: seq<S.Binding>, b: seq<S.Binding>, x: string)
    ensures FindLast(a + b, x) == if FindLast(b, x).Some? then FindLast(b, x) else FindLast(a, x)
  {
    if b == [] {
      assert a + b == a;
    } else {
      var b' := b[..|b| - 1];
      assert (a + b)[..|a + b| - 1] == a + b';
      FindLastCat(a, b', x);
    }
  }

  lemma {:induction false} FindAt(s: S.Scope, x: string, i: nat)
    requires DistinctScope(s) && i < |s| && s[i].name == x
    ensures S.FindIn(s, x) == Some(s[i].loc)
  {
    if i > 0 {
      assert s[0].name != x;
      FindAt(s[1..], x, i - 1);
    }
  }

  lemma {:induction false} FindNone(s: S.Scope, x: string)
    requires forall i :: 0 <= i < |s| ==> s[i].name != x
    ensures S.FindIn(s, x) == None
  {
    if s != [] {
      FindNone(s[1..], x);
    }
  }

  lemma {:induction false} FindLastIs(flat: seq<S.Binding>, x: string)
    ensures FindLast(flat, x) == None ==> forall i :: 0 <= i < |flat| ==> flat[i].name != x
    ensures FindLast(flat, x).Some? ==>
              exists i :: 0 <= i < |flat| && flat[i].name == x && flat[i].loc == FindLast(flat, x).value
  {
    if flat != [] {
      var init := flat[..|flat| - 1];
      FindLastIs(init, x);
      if flat[|flat| - 1].name == x {
        assert flat[|flat| - 1].loc == FindLast(flat, x).value;
      } else if FindLast(init, x).Some? {
        var i :| 0 <= i < |init| && init[i].name == x && init[i].loc == FindLast(init, x).value;
        assert flat[i] == init[i];
      } else {
        forall i | 0 <= i < |flat| ensures flat[i].name != x {
          if i < |init| {
            assert flat[i] == init[i];
          }
        }
      }
    }
  }

  /** The innermost scope wins, as the last local added does. */
  lemma {:induction false} LookupIsLast(env: S.Env, x: string)
    requires forall k :: 0 <= k < |env| ==> DistinctScope(env[k])
    ensures S.Lookup(env, x) == FindLast(Flatten(env), x)
  {
    if env != [] {
      var last := |env| - 1;
      LookupIsLast(env[..last], x);
      FindLastCat(Flatten(env[..last]), env[last], x);
      FindLastIs(env[last], x);
      if FindLast(env[last], x).Some? {
        var i :| 0 <= i < |env[last]| && env[last][i].name == x && env[last][i].loc == FindLast(env[last], x).value;
        FindAt(env[last], x, i);
      } else {
        FindNone(env[last], x);
      }
    }
  }

  /** Each local has the name and the cell of a binding, in the same order. */
  predicate LocalsOk(flat: seq<S.Binding>, ls: seq<Local>, temps: map<nat, MVal>, n: nat) {
    && |flat| == |ls|
    && forall i :: 0 <= i < |ls| ==>
         ls[i].name == flat[i].name && ls[i].slot < n && ls[i].slot in temps && temps[ls[i].slot] == Addr(flat[i].loc)
  }

  lemma {:induction false} FindLocalIs(flat: seq<S.Binding>, ls: seq<Local>, temps: map<nat, MVal>, n: nat, x: string)
    requires LocalsOk(flat, ls, temps, n)
    ensures FindLocal(ls, x).Some? == FindLast(flat, x).Some?
    ensures FindLocal(ls, x).Some? ==>
              var d := FindLocal(ls, x).value;
              d.slot < n && d.slot in temps && temps[d.slot] == Addr(FindLast(flat, x).value)
  {
    if ls != [] && ls[|ls| - 1].name != x {
      FindLocalIs(flat[..|flat| - 1], ls[..|ls| - 1], temps, n, x);
    }
  }

  // Machine states

  predicate At(code: Code, pos: nat, piece: Code) {
    pos + |piece| <= |code| && code[pos..pos + |piece|] == piece
  }

  lemma AtCat(code: Code, pos: nat, a: Code, b: Code)
    requires At(code, pos, a + b)
    ensures At(code, pos, a) && At(code, pos + |a|, b)
  {
    var c := code[pos..pos + |a + b|];
    assert code[pos..pos + |a|] == c[..|a|] == a;
    assert code[pos + |a|..pos + |a| + |b|] == c[|a|..] == b;
  }

  lemma AtOne(code: Code, pos: nat, i: Instr)
    requires At(code, pos, [i])
    ensures pos < |code| && code[pos] == i
  {
    assert code[pos] == code[pos..pos + 1][0];
  }

  predicate Placed(code: Code, l: nat) {
    LabelPos(code, l) < |code|
  }

  lemma {:induction false} LabelPosIs(code: Code, l: nat, i: nat)
    requires UniqueLabels(code) && i < |code| && code[i] == Label(l)
    ensures LabelPos(code, l) == i
  {
    if i > 0 {
      LabelPosIs(code[1..], l, i - 1);
    }
  }

  predicate KeepsTemps(t: map<nat, MVal>, t': map<nat, MVal>, n: nat) {
    forall k :: k < n && k in t ==> k in t' && t'[k] == t[k]
  }

  /** Only the position, the temporaries from `n` on and the shared state differ. */
  predicate Keeps(s: State, s': State, n: nat) {
    && s'.rest == s.rest && s'.top.fn == s.top.fn && s'.top.args == s.top.args && s'.top.mem == s.top.mem
    && KeepsTemps(s.top.temps, s'.top.temps, n)
  }

  predicate Shares(s: State, g: S.Glob) {
    s.vars == RepVars(g.vars) && s.events == g.events && s.answers == g.answers
  }

  /** The state of an activation. */
  predicate Rel(env: S.Env, ls: seq<Local>, n: nat, store: seq<S.Value>, g: S.Glob, s: State) {
    && EnvOk(env, |store|)
    && LocalsOk(Flatten(env), ls, s.top.temps, n)
    && s.top.mem == Reps(store)
    && Shares(s, g)
  }

  predicate Holds(f: Frame, op: Operand, v: S.Value, n: nat) {
    Below(op, n) && BitsOf(f, Width(v.ty), op) == Some(Rep(v))
  }

  lemma KeepsTrans(s: State, s1: State, s2: State, n: nat, n1: nat, n2: nat)
    requires Keeps(s, s1, n1) && Keeps(s1, s2, n2) && n <= n1 && n <= n2
    ensures Keeps(s, s2, n)
  {
  }

  lemma HoldsKept(s: State, s': State, op: Operand, v: S.Value, n: nat, n': nat)
    requires Holds(s.top, op, v, n) && Keeps(s, s', n) && n <= n'
    ensures Holds(s'.top, op, v, n')
  {
  }

  lemma RelKept(env: S.Env, ls: seq<Local>, n: nat, n': nat, store: seq<S.Value>, g: S.Glob, g': S.Glob,
                s: State, s': State)
    requires Rel(env, ls, n, store, g, s) && Keeps(s, s', n) && n <= n' && Shares(s', g')
    ensures Rel(env, ls, n', store, g', s')
  {
  }

  predicate Steps(mp: MProgram, s: State, n: nat, s': State) {
    Run(mp, Running(s), n) == Running(s')
  }

  lemma Then(mp: MProgram, s: State, n1: nat, s1: State, n2: nat)
    requires Steps(mp, s, n1, s1)
    ensures Run(mp, Running(s), n1 + n2) == Run(mp, Running(s1), n2)
  {
    RunAdd(mp, Running(s), n1, n2);
  }

  lemma OneStep(mp: MProgram, s: State)
    ensures Run(mp, Running(s), 1) == Step(mp, s)
  {
    assert Run(mp, Step(mp, s), 0) == Step(mp, s);
  }

  // Variables

  lemma ReadIs(env: S.Env, ls: seq<Local>, n: nat, store: seq<S.Value>, g: S.Glob, s: State, x: string)
    requires Rel(env, ls, n, store, g, s)
    requires S.ReadVar(env, store, g, x).Some?
    ensures ReadCell(s, GenVar(ls, x)) == Some(Rep(S.ReadVar(env, store, g, x).value))
  {
    LookupIsLast(env, x);
    FindLocalIs(Flatten(env), ls, s.top.temps, n, x);
  }

  lemma RepsUpdate(store: seq<S.Value>, k: nat, v: S.Value)
    requires k < |store|
    ensures Reps(store[k := v]) == Reps(store)[k := Rep(v)]
  {
  }

  lemma RepVarsUpdate(m: map<string, S.Value>, x: string, v: S.Value)
    ensures RepVars(m[x := v]) == RepVars(m)[x := Rep(v)]
  {
  }

  lemma WriteIs(env: S.Env, ls: seq<Local>, n: nat, store: seq<S.Value>, g: S.Glob, s: State, x: string, v: S.Value)
    requires Rel(env, ls, n, store, g, s)
    requires S.WriteVar(env, store, g, x, v).Some?
    ensures var w := S.WriteVar(env, store, g, x, v).value;
            var t := WriteCell(s, GenVar(ls, x), Rep(v));
            && t.Some?
            && t.value == s.(top := s.top.(mem := t.value.top.mem), vars := t.value.vars)
            && Rel(env, ls, n, w.0, w.1, t.value)
  {
    LookupIsLast(env, x);
    FindLocalIs(Flatten(env), ls, s.top.temps, n, x);
    var k := S.Lookup(env, x);
    if k.Some? {
      RepsUpdate(store, k.value, v);
    } else {
      RepVarsUpdate(g.vars, x, v);
    }
  }

  // Arithmetic

  lemma WidthFits(w: nat)
    requires w > 0
    ensures w <= Pow2(w - 1)
  {
    if w > 1 {
      WidthFits(w - 1);
    }
  }

  lemma ShiftAmount(w: nat, b: int)
    requires InRange(w, b)
    ensures 0 <= b < w <==> ToBits(w, b) < w
    ensures 0 <= b < w ==> ToBits(w, b) == b
  {
    WidthFits(w);
    if b >= 0 {
      ModUnique(b, Pow2(w), 0, b);
    } else {
      ModUnique(b, Pow2(w), -1, b + Pow2(w));
    }
  }

  lemma ScaledBits(w: nat, a: int, k: nat)
    ensures (ToBits(w, a) * k) % Pow2(w) == ToBits(w, a * k)
  {
    var m := Pow2(w);
    var q, r := a / m, a % m;
    assert a == q * m + r;
    assert a * k == r * k + (q * k) * m by {
      assert (q * m + r) * k == (q * m) * k + r * k;
      assert (q * m) * k == (q * k) * m;
    }
    ModShift(r * k, m, q * k);
  }

  lemma SmallBits(w: nat, n: nat)
    requires n < Pow2(w)
    ensures ToBits(w, n) == n
  {
    ModUnique(n, Pow2(w), 0, n);
  }

  lemma QuotientSmaller(a: nat, k: nat)
    requires k > 0
    ensures a / k <= a
  {
    var q := a / k;
    if q > a {
      MulAtLeast(k, q);
    }
  }

  /** The instruction computes the wrapped result, and is undefined exactly where the operation is. */
  lemma ArithIs(op: BinOp, w: nat, a: int, b: int)
    requires InRange(w, a) && InRange(w, b)
    ensures var n := S.Arith(op, w, a, b);
            var r := ArithBits(op, w, ToBits(w, a), ToBits(w, b));
            if n.None? then r.None? else r == Some(ToBits(w, n.value))
  {
    hide Pow2, ToBits, Signed, InRange, BitwiseBits, BitwiseInt, S.Quot, S.Rem;
    SignedOfBits(w, a);
    SignedOfBits(w, b);
    match op
    case Add => BitsOfSum(w, a, b);
    case Sub => BitsOfSum(w, a, b);
    case Mul => BitsOfProduct(w, a, b);
    case Div =>
    case Mod =>
    case Shl =>
      ShiftAmount(w, b);
      if 0 <= b < w {
        ScaledBits(w, a, Pow2(b));
      }
    case Shr =>
      ShiftAmount(w, b);
      if 0 <= b < w {
        QuotientSmaller(ToBits(w, a), Pow2(b));
        SmallBits(w, ToBits(w, a) / Pow2(b));
      }
    case BitAnd => BitsOfBitwise(AndFn, w, a, b);
    case BitOr => BitsOfBitwise(OrFn, w, a, b);
    case Xor => BitsOfBitwise(XorFn, w, a, b);
  }

  lemma CompareIs(op: CmpOp, w: nat, a: int, b: int)
    requires InRange(w, a) && InRange(w, b)
    ensures CmpBits(op, w, ToBits(w, a), ToBits(w, b)) == S.Compare(op, a, b)
  {
    SignedOfBits(w, a);
    SignedOfBits(w, b);
    BiasedBits(w, a);
    BiasedBits(w, b);
  }

  lemma BiasedBits(w: nat, n: int)
    requires InRange(w, n)
    ensures Biased(w, ToBits(w, n)) == n + Pow2(w - 1)
  {
    var half := Pow2(w - 1);
    if n >= 0 {
      ModUnique(n, Pow2(w), 0, n);
      ModUnique(n + half, Pow2(w), 0, n + half);
    } else {
      ModUnique(n, Pow2(w), -1, n + Pow2(w));
      ModUnique(n + Pow2(w) + half, Pow2(w), 1, n + half);
    }
  }

  lemma RepMk(t: Ty, n: int)
    requires IsValueTy(t)
    ensures Rep(S.MkValue(t, n)) == Bits(Width(t), ToBits(Width(t), n))
  {
    BitsOfWrap(Width(t), n);
  }
}
