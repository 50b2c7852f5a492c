/** Compiled programs behave as their sources do, whether they end, trap or run forever. */
module Preservation {
  import opened Ast
  import opened Machine
  import opened Related
  import opened Stepping
  import opened Simulation
  import S = Source

  /** A call of a function of the program with given arguments and global state. */
  datatype Start = Start(p: Program, sig: Sig, vals: seq<S.Value>, g: S.Glob)

  function Source(t: Start, fuel: nat): S.Res<Option<S.Value>> {
    S.CallFn(fuel, t.p, t.sig, t.vals, t.g)
  }

  function Initial(t: Start): State {
    State(Fresh0(t.sig.name, Reps(t.vals)), Bottom, RepVars(t.g.vars), t.g.events, t.g.answers)
  }

  function Target(mp: MProgram, t: Start, n: nat): Status {
    Run(mp, Running(Initial(t)), n)
  }

  function RepOption(v: Option<S.Value>): Option<MVal> {
    if v.Some? then Some(Rep(v.value)) else None
  }

  /** The final state of the machine for a result of the source. */
  function Image(v: Option<S.Value>, g: S.Glob): Status {
    Finished(RepOption(v), RepVars(g.vars), g.events)
  }

  /** No run of the source breaks a rule that semantic analysis checks. */
  ghost predicate NeverWrong(t: Start) {
    forall fuel :: Source(t, fuel) != S.Stop(S.Wrong)
  }

  lemma TopLeave(mp: MProgram, s: State, v: Option<S.Value>, g: S.Glob)
    requires s.rest == Bottom && Shares(s, g) && s.top.fn in mp && Leaving(mp[s.top.fn], s, v)
    ensures Step(mp, s) == Image(v, g)
  {
    hide BitsOf, RepVars;
  }

  /** With some fuel, the machine gets where the source gets, or is still busy after as many steps. */
  lemma {:induction false} Forward(mp: MProgram, t: Start, fuel: nat) returns (n: nat)
    requires Linked(t.p, mp) && t.sig.name in t.p
    ensures match Source(t, fuel)
            case Ok(v, g') => Target(mp, t, n) == Image(v, g')
            case Stop(Trap(ev)) => Target(mp, t, n) == Trapped(ev)
            case Stop(Timeout) => Target(mp, t, n).Running? && fuel <= n + 1
            case Stop(Wrong) => true
  {
    hide Run, Step, Linked, S.ExecStmts, Leaving;
    var s := Initial(t);
    n := 0;
    if fuel == 0 {
      Zero(mp, s);
      return;
    }
    var s';
    n, s' := SimFunc(t.p, mp, fuel, t.g, t.sig, t.vals, s);
    var r := Source(t, fuel);
    if r.Ok? {
      TopLeave(mp, s', r.v, r.g);
      Then(mp, s, n, s', 1);
      OneStep(mp, s');
      n := n + 1;
    }
  }

  lemma StoppedOnce(mp: MProgram, t: Start, n: nat, m: nat)
    requires n <= m && !Target(mp, t, n).Running?
    ensures Target(mp, t, m) == Target(mp, t, n)
  {
    RunAdd(mp, Running(Initial(t)), n, m - n);
    RunStopped(mp, Target(mp, t, n), m - n);
  }

  /** The machine stops nowhere but where the source ends or traps. */
  lemma {:induction false} Backward(mp: MProgram, t: Start, n: nat) returns (fuel: nat)
    requires Linked(t.p, mp) && t.sig.name in t.p && NeverWrong(t)
    requires !Target(mp, t, n).Running?
    ensures match Source(t, fuel)
            case Ok(v, g') => Target(mp, t, n) == Image(v, g')
            case Stop(Trap(ev)) => Target(mp, t, n) == Trapped(ev)
            case Stop(_) => false
  {
    fuel := n + 2;
    var m := Forward(mp, t, fuel);
    assert Source(t, fuel) != S.Stop(S.Wrong);
    if n <= m {
      StoppedOnce(mp, t, n, m);
    } else {
      StoppedOnce(mp, t, m, n);
    }
  }

  ghost predicate SourceEnds(t: Start, v: Option<S.Value>, g': S.Glob) {
    exists fuel :: Source(t, fuel) == S.Ok(v, g')
  }

  ghost predicate SourceTraps(t: Start, ev: seq<S.Event>) {
    exists fuel :: Source(t, fuel) == S.Stop(S.Trap(ev))
  }

  ghost predicate SourceRunsForever(t: Start) {
    forall fuel :: Source(t, fuel) == S.Stop(S.Timeout)
  }

  /** The machine ends with the image of a result exactly when the source has a result with that image. */
  lemma EndsAlike(mp: MProgram, t: Start, st: Status)
    requires Linked(t.p, mp) && t.sig.name in t.p && NeverWrong(t) && st.Finished?
    ensures (exists n :: Target(mp, t, n) == st) <==> (exists v, g' :: SourceEnds(t, v, g') && Image(v, g') == st)
  {
    hide Linked, Run;
    if n :| Target(mp, t, n) == st {
      var fuel := Backward(mp, t, n);
      var r := Source(t, fuel);
      assert SourceEnds(t, r.v, r.g) && Image(r.v, r.g) == st;
    }
    if v, g' :| SourceEnds(t, v, g') && Image(v, g') == st {
      var fuel :| Source(t, fuel) == S.Ok(v, g');
      var n := Forward(mp, t, fuel);
    }
  }

  lemma TrapsAlike(mp: MProgram, t: Start, ev: seq<S.Event>)
    requires Linked(t.p, mp) && t.sig.name in t.p && NeverWrong(t)
    ensures (exists n :: Target(mp, t, n) == Trapped(ev)) <==> SourceTraps(t, ev)
  {
    hide Linked, Run;
    if n :| Target(mp, t, n) == Trapped(ev) {
      var fuel := Backward(mp, t, n);
    }
    if SourceTraps(t, ev) {
      var fuel :| Source(t, fuel) == S.Stop(S.Trap(ev));
      var n := Forward(mp, t, fuel);
    }
  }

  lemma RunsForeverAlike(mp: MProgram, t: Start)
    requires Linked(t.p, mp) && t.sig.name in t.p && NeverWrong(t)
    ensures (forall n :: Target(mp, t, n).Running?) <==> SourceRunsForever(t)
  {
    hide Linked, Run;
    if forall n :: Target(mp, t, n).Running? {
      forall fuel ensures Source(t, fuel) == S.Stop(S.Timeout) {
        var n := Forward(mp, t, fuel);
        assert Target(mp, t, n).Running? && Source(t, fuel) != S.Stop(S.Wrong);
      }
    } else {
      var n :| !Target(mp, t, n).Running?;
      var fuel := Backward(mp, t, n);
    }
  }

  /** The machine never gets stuck: it reads no temporary or cell before it is written, branches to no label that
      is not placed, and falls into no label. */
  lemma NeverStuck(mp: MProgram, t: Start, n: nat)
    requires Linked(t.p, mp) && t.sig.name in t.p && NeverWrong(t)
    ensures Target(mp, t, n) != Stuck
  {
    hide Linked, Run;
    if Target(mp, t, n) == Stuck {
      var fuel := Backward(mp, t, n);
    }
  }

  /** Two results of the same call, whatever the fuel, are the same to the machine. */
  lemma ResultsAgree(mp: MProgram, t: Start, f1: nat, f2: nat)
    requires Linked(t.p, mp) && t.sig.name in t.p
    requires Source(t, f1).Ok? && Source(t, f2).Ok?
    ensures Image(Source(t, f1).v, Source(t, f1).g) == Image(Source(t, f2).v, Source(t, f2).g)
  {
    hide Linked, Run;
    var n1 := Forward(mp, t, f1);
    var n2 := Forward(mp, t, f2);
    StoppedOnce(mp, t, n1, if n1 <= n2 then n2 else n1);
    StoppedOnce(mp, t, n2, if n1 <= n2 then n2 else n1);
  }
}
