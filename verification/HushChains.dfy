/**
  And-or chains.  run_list_real abandons a chain at the first operator that does
  not want its command.  That is the POSIX meaning exactly for chains that use
  one operator only.
 */
module HushChains {
  import opened HushSyntax
  import opened HushMachine
  import opened HushSemantics
  import opened HushRefinement

  // ----- chains with one operator -----

  predicate PureTail(t: Tail) {
    t.More? && t.tail.More? ==> t.op == t.tail.op && PureTail(t.tail)
  }

  predicate PureScript(s: Script) {
    match s
    case Done => true
    case Then(Blank, rest) => PureScript(rest)
    case Then(AndOr(c, t), rest) => PureCommand(c) && PureTail(t) && PureCommands(t) && PureScript(rest)
  }

  predicate PureCommands(t: Tail) {
    t.More? ==> PureCommand(t.next) && PureCommands(t.tail)
  }

  predicate PureCommand(c: Command) {
    match c
    case Simple(_) => true
    case If(arms) => PureArms(arms)
    case Loop(_, cond, body) => PureScript(cond) && PureScript(body)
    case For(_, _, _, body) => PureScript(body)
  }

  predicate PureArms(a: Arms) {
    match a
    case Fi => true
    case Else(body) => PureScript(body)
    case Arm(cond, body, rest) => PureScript(cond) && PureScript(body) && PureArms(rest)
  }

  lemma {:induction false} UnwantedTail(env: Env, rule: Rule, t: Tail, h: History, st: int, fuel: nat)
    requires PureTail(t) && t.More? && !Wants(t.op, st)
    ensures EvalTail(env, rule, t, h, st, fuel) == Finished(h, st)
    decreases t
  {
    if t.tail.More? {
      UnwantedTail(env, rule, t.tail, h, st, fuel);
    }
  }

  lemma {:induction false} TailAgrees(env: Env, t: Tail, h: History, st: int, fuel: nat)
    requires PureTail(t) && PureCommands(t)
    ensures EvalTail(env, LastRun, t, h, st, fuel) == EvalTail(env, Abandon, t, h, st, fuel)
    decreases fuel, t, 0
  {
    if t.More? {
      if Wants(t.op, st) {
        CommandAgrees(env, t.next, h, fuel);
        var r := EvalCommand(env, LastRun, t.next, h, fuel);
        if r.Finished? {
          TailAgrees(env, t.tail, r.hist, r.code, fuel);
        }
      } else {
        UnwantedTail(env, LastRun, t, h, st, fuel);
      }
    }
  }

  lemma {:induction false} ScriptAgrees(env: Env, s: Script, h: History, st: int, fuel: nat)
    requires PureScript(s)
    ensures EvalScript(env, LastRun, s, h, st, fuel) == EvalScript(env, Abandon, s, h, st, fuel)
    decreases fuel, s, 0
  {
    match s
    case Done =>
    case Then(Blank, rest) => ScriptAgrees(env, rest, h, st, fuel);
    case Then(AndOr(c, t), rest) =>
      assert s decreases to s.unit;
      CommandAgrees(env, c, h, fuel);
      var r := EvalCommand(env, LastRun, c, h, fuel);
      if r.Finished? {
        TailAgrees(env, t, r.hist, r.code, fuel);
      }
      var r' := EvalChain(env, LastRun, s.unit, h, fuel);
      if r'.Finished? {
        ScriptAgrees(env, rest, r'.hist, r'.code, fuel);
      }
  }

  lemma {:induction false} CommandAgrees(env: Env, c: Command, h: History, fuel: nat)
    requires PureCommand(c)
    ensures EvalCommand(env, LastRun, c, h, fuel) == EvalCommand(env, Abandon, c, h, fuel)
    decreases fuel, c, 2
  {
    match c
    case Simple(_) =>
    case If(arms) => ArmsAgree(env, arms, h, 0, fuel);
    case Loop(_, _, _) => LoopAgrees(env, c, h, 0, fuel);
    case For(name, raw, _, _) =>
      ForAgrees(env, c, if raw == [] then [] else Assignments(name, env.fields(h, raw)), h, 0, fuel);
  }

  lemma {:induction false} ArmsAgree(env: Env, a: Arms, h: History, st: int, fuel: nat)
    requires PureArms(a)
    ensures EvalArms(env, LastRun, a, h, st, fuel) == EvalArms(env, Abandon, a, h, st, fuel)
    decreases fuel, a, 0
  {
    match a
    case Fi =>
    case Else(body) => ScriptAgrees(env, body, h, st, fuel);
    case Arm(cond, body, rest) =>
      ScriptAgrees(env, cond, h, st, fuel);
      var r := EvalScript(env, LastRun, cond, h, st, fuel);
      if r.Finished? {
        ScriptAgrees(env, body, r.hist, r.code, fuel);
        ArmsAgree(env, rest, r.hist, r.code, fuel);
      }
  }

  lemma {:induction false} LoopAgrees(env: Env, c: Command, h: History, st: int, fuel: nat)
    requires PureCommand(c) && c.Loop?
    ensures EvalLoop(env, LastRun, c, h, st, fuel) == EvalLoop(env, Abandon, c, h, st, fuel)
    decreases fuel, c, 0
  {
    ScriptAgrees(env, c.cond, h, st, fuel);
    var r := EvalScript(env, LastRun, c.cond, h, st, fuel);
    if r.Finished? {
      ScriptAgrees(env, c.body, r.hist, r.code, fuel);
      var r' := EvalScript(env, LastRun, c.body, r.hist, r.code, fuel);
      if r'.Finished? && fuel > 0 {
        LoopAgrees(env, c, r'.hist, r'.code, fuel - 1);
      }
    }
  }

  lemma {:induction false} ForAgrees(env: Env, c: Command, vs: seq<string>, h: History, st: int, fuel: nat)
    requires PureCommand(c) && c.For?
    ensures EvalFor(env, LastRun, c, vs, h, st, fuel) == EvalFor(env, Abandon, c, vs, h, st, fuel)
    decreases fuel, c, 0
  {
    if vs != [] {
      var r := EvalSimple(env, [vs[0]], h);
      if r.Finished? {
        ScriptAgrees(env, c.body, r.hist, r.code, fuel);
        var r' := EvalScript(env, LastRun, c.body, r.hist, r.code, fuel);
        if r'.Finished? && fuel > 0 {
          ForAgrees(env, c, vs[1..], r'.hist, r'.code, fuel - 1);
        }
      }
    }
  }

  /** Scripts with one-operator chains: POSIX chains, with the status of the last command that ran. */
  lemma PureChainsFollowed(env: Env, s: Script, h: History, fuel: nat)
    requires WfScript(s) && PureScript(s)
    ensures RunList(env, FlattenLine(s), h, fuel) == EvalScript(env, LastRun, s, h, 0, fuel)
  {
    LineRuns(env, s, h, fuel);
    ScriptAgrees(env, s, h, 0, fuel);
  }

  // ----- chains that mix && and || -----

  predicate SimpleTail(t: Tail) {
    t.More? ==> t.next.Simple? && SimpleTail(t.tail)
  }

  /** Position of the first change of operator. */
  function Turn(t: Tail): nat
    requires !PureTail(t)
  {
    if t.op != t.tail.op then 0 else 1 + Turn(t.tail)
  }

  function Good(op: Op): int { if op.And? then 0 else 1 }

  function Bad(op: Op): int { if op.And? then 1 else 0 }

  /** A world whose first n commands please op and whose later ones do not. */
  function TurningWorld(op: Op, n: nat): Env {
    Env((h: History, argv: seq<string>) => if |h| < n then Good(op) else Bad(op),
        (h: History, raw: seq<string>) => [])
  }

  lemma {:induction false} TailGrows(op: Op, n: nat, rule: Rule, t: Tail, h: History, st: int, fuel: nat)
    requires SimpleTail(t)
    ensures var r := EvalTail(TurningWorld(op, n), rule, t, h, st, fuel);
      r.Finished? && |r.hist| >= |h|
    decreases t
  {
    if t.More? {
      if Wants(t.op, st) {
        var r := EvalCommand(TurningWorld(op, n), rule, t.next, h, fuel);
        TailGrows(op, n, rule, t.tail, r.hist, r.code, fuel);
      } else if !rule.Abandon? {
        TailGrows(op, n, rule, t.tail, h, st, fuel);
      }
    }
  }

  lemma {:induction false} TurnShows(n: nat, t: Tail, h: History, fuel: nat)
    requires SimpleTail(t) && !PureTail(t) && |h| + Turn(t) == n + 1
    ensures var env, st := TurningWorld(t.op, n), if |h| - 1 < n then Good(t.op) else Bad(t.op);
      |EvalTail(env, Abandon, t, h, st, fuel).hist| < |EvalTail(env, Posix, t, h, st, fuel).hist|
    decreases t
  {
    var env, t' := TurningWorld(t.op, n), t.tail;
    if t.op == t'.op {
      var r := EvalCommand(env, Abandon, t.next, h, fuel);
      TurnShows(n, t', r.hist, fuel);
    } else {
      var r := EvalCommand(env, Posix, t'.next, h, fuel);
      TailGrows(t.op, n, Posix, t'.tail, r.hist, r.code, fuel);
    }
  }

  /** A chain of simple commands that mixes operators is not run as POSIX demands in some world. */
  lemma MixedChainDiffers(first: Command, t: Tail) returns (env: Env)
    requires first.Simple? && SimpleTail(t) && !PureTail(t)
    ensures var s := Then(AndOr(first, t), Done);
      forall fuel: nat :: RunList(env, FlattenLine(s), [], fuel) != EvalScript(env, Posix, s, [], 0, fuel)
  {
    env := TurningWorld(t.op, Turn(t));
    var s := Then(AndOr(first, t), Done);
    SimpleIsWf(t);
    forall fuel: nat
      ensures RunList(env, FlattenLine(s), [], fuel) != EvalScript(env, Posix, s, [], 0, fuel)
    {
      LineRuns(env, s, [], fuel);
      var r := EvalCommand(env, Posix, first, [], fuel);
      assert EvalCommand(env, Abandon, first, [], fuel) == r;
      TurnShows(Turn(t), t, r.hist, fuel);
      TailGrows(t.op, Turn(t), Posix, t, r.hist, r.code, fuel);
      TailGrows(t.op, Turn(t), Abandon, t, r.hist, r.code, fuel);
    }
  }

  lemma {:induction false} SimpleIsWf(t: Tail)
    requires SimpleTail(t)
    ensures WfTail(t) && PureCommands(t)
    decreases t
  {
    if t.More? {
      SimpleIsWf(t.tail);
    }
  }

  /** Chains of simple commands hold no compound, so their statuses are those of POSIX. */
  lemma {:induction false} SimpleTailSame(env: Env, t: Tail, h: History, st: int, fuel: nat)
    requires SimpleTail(t)
    ensures EvalTail(env, Posix, t, h, st, fuel) == EvalTail(env, LastRun, t, h, st, fuel)
    decreases t
  {
    if t.More? {
      if Wants(t.op, st) {
        var r := EvalSimple(env, t.next.argv, h);
        if r.Finished? {
          SimpleTailSame(env, t.tail, r.hist, r.code, fuel);
        }
      } else {
        SimpleTailSame(env, t.tail, h, st, fuel);
      }
    }
  }

  lemma PureChainIsPosix(env: Env, first: Command, t: Tail, h: History, fuel: nat)
    requires first.Simple? && SimpleTail(t) && PureTail(t)
    ensures var s := Then(AndOr(first, t), Done);
      RunList(env, FlattenLine(s), h, fuel) == EvalScript(env, Posix, s, h, 0, fuel)
  {
    var s := Then(AndOr(first, t), Done);
    SimpleIsWf(t);
    PureChainsFollowed(env, s, h, fuel);
    hide RunList;
    var r := EvalSimple(env, first.argv, h);
    assert EvalChain(env, Posix, s.unit, h, fuel) == EvalChain(env, LastRun, s.unit, h, fuel) by {
      assert EvalCommand(env, Posix, first, h, fuel) == r == EvalCommand(env, LastRun, first, h, fuel);
      if r.Finished? {
        SimpleTailSame(env, t, r.hist, r.code, fuel);
      }
    }
    var r' := EvalChain(env, Posix, s.unit, h, fuel);
    if r'.Finished? {
      assert EvalScript(env, Posix, Done, r'.hist, r'.code, fuel) == r' ==
          EvalScript(env, LastRun, Done, r'.hist, r'.code, fuel);
    }
  }

  /** Exactly the one-operator chains are run as POSIX demands in every world. */
  lemma PosixIffPure(first: Command, t: Tail)
    requires first.Simple? && SimpleTail(t)
    ensures var s := Then(AndOr(first, t), Done);
      PureTail(t) <==>
      forall env: Env, h: History, fuel: nat ::
        RunList(env, FlattenLine(s), h, fuel) == EvalScript(env, Posix, s, h, 0, fuel)
  {
    var s := Then(AndOr(first, t), Done);
    hide RunList, EvalScript;
    if PureTail(t) {
      forall env: Env, h: History, fuel: nat
        ensures RunList(env, FlattenLine(s), h, fuel) == EvalScript(env, Posix, s, h, 0, fuel)
      {
        PureChainIsPosix(env, first, t, h, fuel);
      }
    } else {
      var env := MixedChainDiffers(first, t);
      assert RunList(env, FlattenLine(s), [], 0) != EvalScript(env, Posix, s, [], 0, 0);
    }
  }
}
