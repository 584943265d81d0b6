/**
  Leaving the shell.  The status of an exit from inside a compound is lost on the
  way out; here is exactly when.
 */
module HushExit {
  import opened HushSyntax
  import opened HushMachine
  import opened HushSemantics
  import opened HushRefinement
  import opened HushChains

  function LastCode(h: History): int
    requires h != []
  {
    h[|h| - 1].code
  }

  /** An exit is caused by the last command; under Posix it has that command's status. */
  predicate ExitedByLast(rule: Rule, r: Outcome) {
    r.Exited? ==> r.hist != [] && LastCode(r.hist) < -1 && (rule.Posix? ==> r.status == -LastCode(r.hist) - 2)
  }

  lemma {:induction false} ScriptExit(env: Env, rule: Rule, s: Script, h: History, st: int, fuel: nat)
    ensures ExitedByLast(rule, EvalScript(env, rule, s, h, st, fuel))
    decreases fuel, s, 0
  {
    match s
    case Done =>
    case Then(Blank, rest) => ScriptExit(env, rule, rest, h, st, fuel);
    case Then(AndOr(c, t), rest) =>
      assert s decreases to s.unit;
      CommandExit(env, rule, c, h, fuel);
      var r := EvalCommand(env, rule, c, h, fuel);
      if r.Finished? {
        TailExit(env, rule, t, r.hist, r.code, fuel);
      }
      var r' := EvalChain(env, rule, s.unit, h, fuel);
      if r'.Finished? {
        ScriptExit(env, rule, rest, r'.hist, r'.code, fuel);
      }
  }

  lemma {:induction false} TailExit(env: Env, rule: Rule, t: Tail, h: History, st: int, fuel: nat)
    ensures ExitedByLast(rule, EvalTail(env, rule, t, h, st, fuel))
    decreases fuel, t, 0
  {
    if t.More? {
      if Wants(t.op, st) {
        CommandExit(env, rule, t.next, h, fuel);
        var r := EvalCommand(env, rule, t.next, h, fuel);
        if r.Finished? {
          TailExit(env, rule, t.tail, r.hist, r.code, fuel);
        }
      } else {
        TailExit(env, rule, t.tail, h, st, fuel);
      }
    }
  }

  lemma {:induction false} CommandExit(env: Env, rule: Rule, c: Command, h: History, fuel: nat)
    ensures ExitedByLast(rule, EvalCommand(env, rule, c, h, fuel))
    decreases fuel, c, 2
  {
    match c
    case Simple(_) =>
    case If(arms) => ArmsExit(env, rule, arms, h, 0, fuel);
    case Loop(_, _, _) => LoopExit(env, rule, c, h, 0, fuel);
    case For(name, raw, _, _) =>
      ForExit(env, rule, c, if raw == [] then [] else Assignments(name, env.fields(h, raw)), h, 0, fuel);
  }

  lemma {:induction false} ArmsExit(env: Env, rule: Rule, a: Arms, h: History, st: int, fuel: nat)
    ensures ExitedByLast(rule, EvalArms(env, rule, a, h, st, fuel))
    decreases fuel, a, 0
  {
    match a
    case Fi =>
    case Else(body) => ScriptExit(env, rule, body, h, st, fuel);
    case Arm(cond, body, rest) =>
      ScriptExit(env, rule, cond, h, st, fuel);
      var r := EvalScript(env, rule, cond, h, st, fuel);
      if r.Finished? {
        ScriptExit(env, rule, body, r.hist, r.code, fuel);
        ArmsExit(env, rule, rest, r.hist, r.code, fuel);
      }
  }

  lemma {:induction false} LoopExit(env: Env, rule: Rule, c: Command, h: History, st: int, fuel: nat)
    requires c.Loop?
    ensures ExitedByLast(rule, EvalLoop(env, rule, c, h, st, fuel))
    decreases fuel, c, 0
  {
    ScriptExit(env, rule, c.cond, h, st, fuel);
    var r := EvalScript(env, rule, c.cond, h, st, fuel);
    if r.Finished? {
      ScriptExit(env, rule, c.body, r.hist, r.code, fuel);
      var b := EvalScript(env, rule, c.body, r.hist, r.code, fuel);
      if b.Finished? && fuel > 0 {
        LoopExit(env, rule, c, b.hist, b.code, fuel - 1);
      }
    }
  }

  lemma {:induction false} ForExit(env: Env, rule: Rule, c: Command, vs: seq<string>, h: History, st: int, fuel: nat)
    requires c.For?
    ensures ExitedByLast(rule, EvalFor(env, rule, c, vs, h, st, fuel))
    decreases fuel, c, 0
  {
    if vs != [] {
      var r := EvalSimple(env, [vs[0]], h);
      if r.Finished? {
        ScriptExit(env, rule, c.body, r.hist, r.code, fuel);
        var b := EvalScript(env, rule, c.body, r.hist, r.code, fuel);
        if b.Finished? && fuel > 0 {
          ForExit(env, rule, c, vs[1..], b.hist, b.code, fuel - 1);
        }
      }
    }
  }

  /** The command at which the shell's run of s ended stands outside every compound. */
  predicate EndsBare(env: Env, s: Script, h: History, st: int, fuel: nat) {
    match s
    case Done => false
    case Then(Blank, rest) => EndsBare(env, rest, h, st, fuel)
    case Then(AndOr(c, t), rest) =>
      match EvalCommand(env, Abandon, c, h, fuel)
      case Finished(h, st) =>
        (match EvalTail(env, Abandon, t, h, st, fuel)
         case Finished(h, st) => EndsBare(env, rest, h, st, fuel)
         case _ => TailEndsBare(env, t, h, st, fuel))
      case _ => c.Simple?
  }

  predicate TailEndsBare(env: Env, t: Tail, h: History, st: int, fuel: nat) {
    if t.End? || !Wants(t.op, st) then false
    else
      match EvalCommand(env, Abandon, t.next, h, fuel)
      case Finished(h, st) => TailEndsBare(env, t.tail, h, st, fuel)
      case _ => t.next.Simple?
  }

  lemma {:induction false} BareExit(env: Env, s: Script, h: History, st: int, fuel: nat)
    ensures var r := EvalScript(env, Abandon, s, h, st, fuel);
      r.Exited? ==> r.hist != [] && r.status == if EndsBare(env, s, h, st, fuel) then -LastCode(r.hist) - 2 else 0
    decreases s
  {
    ScriptExit(env, Abandon, s, h, st, fuel);
    match s
    case Done =>
    case Then(Blank, rest) => BareExit(env, rest, h, st, fuel);
    case Then(AndOr(c, t), rest) =>
      var r := EvalCommand(env, Abandon, c, h, fuel);
      if r.Finished? {
        BareTailExit(env, t, r.hist, r.code, fuel);
        var r' := EvalTail(env, Abandon, t, r.hist, r.code, fuel);
        if r'.Finished? {
          BareExit(env, rest, r'.hist, r'.code, fuel);
        }
      }
  }

  lemma {:induction false} BareTailExit(env: Env, t: Tail, h: History, st: int, fuel: nat)
    ensures var r := EvalTail(env, Abandon, t, h, st, fuel);
      r.Exited? ==> r.hist != [] && r.status == if TailEndsBare(env, t, h, st, fuel) then -LastCode(r.hist) - 2 else 0
    decreases t
  {
    TailExit(env, Abandon, t, h, st, fuel);
    if t.More? && Wants(t.op, st) {
      var r := EvalCommand(env, Abandon, t.next, h, fuel);
      if r.Finished? {
        BareTailExit(env, t.tail, r.hist, r.code, fuel);
      }
    }
  }

  /**
    The shell is left with the status of the command that left it exactly when
    that command stands outside every compound, or has status 0 anyway.
   */
  lemma ExitStatus(env: Env, s: Script, h: History, fuel: nat)
    requires WfScript(s) && RunList(env, FlattenLine(s), h, fuel).Exited?
    ensures var r := RunList(env, FlattenLine(s), h, fuel);
      && r.hist != [] && LastCode(r.hist) < -1
      && (r.status == -LastCode(r.hist) - 2 <==> EndsBare(env, s, h, 0, fuel) || LastCode(r.hist) == -2)
  {
    LineRuns(env, s, h, fuel);
    ScriptExit(env, Abandon, s, h, 0, fuel);
    BareExit(env, s, h, 0, fuel);
  }

  // ----- scripts whose exits all keep their status -----

  /** The first command that c runs, for values aside, is a simple one. */
  predicate Voiced(c: Command) {
    match c
    case Simple(_) => true
    case If(arms) => arms.Arm? && VoicedScript(arms.cond)
    case Loop(_, cond, _) => VoicedScript(cond)
    case For(_, raw, _, body) => raw != [] && VoicedScript(body)
  }

  predicate VoicedScript(s: Script) {
    s.Then? && if s.unit.Blank? then VoicedScript(s.rest) else Voiced(s.unit.first)
  }

  predicate AllVoiced(s: Script) {
    match s
    case Done => true
    case Then(Blank, rest) => AllVoiced(rest)
    case Then(AndOr(c, t), rest) => Voiced(c) && TailVoiced(t) && AllVoiced(rest)
  }

  predicate TailVoiced(t: Tail) {
    t.More? ==> Voiced(t.next) && TailVoiced(t.tail)
  }

  /** The assignments of `for` values in front of that first command. */
  function Lead(c: Command): nat
    requires Voiced(c)
  {
    match c
    case Simple(_) => 0
    case If(arms) => LeadScript(arms.cond)
    case Loop(_, cond, _) => LeadScript(cond)
    case For(_, _, _, body) => 1 + LeadScript(body)
  }

  function LeadScript(s: Script): nat
    requires VoicedScript(s)
  {
    if s.unit.Blank? then LeadScript(s.rest) else Lead(s.unit.first)
  }

  /** Every command outside compounds: the script has no compound at all. */
  predicate AllSimple(s: Script) {
    match s
    case Done => true
    case Then(Blank, rest) => AllSimple(rest)
    case Then(AndOr(c, t), rest) => c.Simple? && SimpleTail(t) && AllSimple(rest)
  }

  function Zeros(n: nat): (z: seq<int>)
    ensures |z| == n && forall i :: 0 <= i < n ==> z[i] == 0
  {
    seq(n, i => 0)
  }

  function AndCount(t: Tail): nat {
    if t.More? && t.op.And? then 1 + AndCount(t.tail) else 0
  }

  /** Exit codes with which the shell reaches the first simple command inside a compound. */
  function Path(s: Script): seq<int>
    requires AllVoiced(s) && !AllSimple(s)
  {
    match s
    case Then(Blank, rest) => Path(rest)
    case Then(AndOr(c, t), rest) =>
      if !c.Simple? then Zeros(Lead(c))
      else if !SimpleTail(t) then TailPath(t)
      else Zeros(1 + AndCount(t)) + Path(rest)
  }

  /** Starts with the code of the command in front of t. */
  function TailPath(t: Tail): seq<int>
    requires TailVoiced(t) && !SimpleTail(t)
  {
    [Good(t.op)] + if !t.next.Simple? then Zeros(Lead(t.next)) else TailPath(t.tail)
  }

  /** A world that answers with codes and then exits with status 1. */
  function ExitWorld(codes: seq<int>): Env {
    Env((h: History, argv: seq<string>) => if |h| < |codes| then codes[|h|] else -3,
        (h: History, raw: seq<string>) => [""])
  }

  predicate LostExit(r: Outcome) {
    r.Exited? && r.hist != [] && LastCode(r.hist) == -3 && r.status == 0
  }

  lemma {:induction false} VoicedExits(codes: seq<int>, c: Command, h: History, fuel: nat)
    requires Voiced(c) && |h| + Lead(c) == |codes| && codes[|h|..] == Zeros(Lead(c))
    ensures var r := EvalCommand(ExitWorld(codes), Abandon, c, h, fuel);
      r.Exited? && (!c.Simple? ==> r.status == 0) && r.hist != [] && LastCode(r.hist) == -3
    decreases c
  {
    var env := ExitWorld(codes);
    match c
    case Simple(_) =>
    case If(arms) =>
      VoicedScriptExits(codes, arms.cond, h, 0, fuel);
      assert EvalArms(env, Abandon, arms, h, 0, fuel) == EvalScript(env, Abandon, arms.cond, h, 0, fuel);
    case Loop(_, cond, _) =>
      VoicedScriptExits(codes, cond, h, 0, fuel);
      assert EvalLoop(env, Abandon, c, h, 0, fuel) == EvalScript(env, Abandon, cond, h, 0, fuel);
    case For(name, raw, _, body) =>
      assert codes[|h|] == codes[|h|..][0] == 0;
      var vs := Assignments(name, env.fields(h, raw));
      var r := EvalSimple(env, [vs[0]], h);
      assert codes[|h| + 1..] == Zeros(LeadScript(body));
      VoicedScriptExits(codes, body, r.hist, r.code, fuel);
      assert EvalFor(env, Abandon, c, vs, h, 0, fuel) == EvalScript(env, Abandon, body, r.hist, r.code, fuel);
  }

  lemma {:induction false} VoicedScriptExits(codes: seq<int>, s: Script, h: History, st: int, fuel: nat)
    requires VoicedScript(s) && |h| + LeadScript(s) == |codes| && codes[|h|..] == Zeros(LeadScript(s))
    ensures var r := EvalScript(ExitWorld(codes), Abandon, s, h, st, fuel);
      r.Exited? && r.hist != [] && LastCode(r.hist) == -3
    decreases s
  {
    if s.unit.Blank? {
      VoicedScriptExits(codes, s.rest, h, st, fuel);
    } else {
      VoicedExits(codes, s.unit.first, h, fuel);
    }
  }

  lemma {:induction false} TailReached(codes: seq<int>, t: Tail, h: History, fuel: nat)
    requires TailVoiced(t) && !SimpleTail(t) && 0 < |h| <= |codes| + 1 && codes[|h| - 1..] == TailPath(t)
    ensures LostExit(EvalTail(ExitWorld(codes), Abandon, t, h, Good(t.op), fuel))
    decreases t
  {
    var env := ExitWorld(codes);
    assert codes[|h|..] == codes[|h| - 1..][1..];
    if !t.next.Simple? {
      VoicedExits(codes, t.next, h, fuel);
    } else {
      assert codes[|h|] == codes[|h|..][0] == Good(t.tail.op);
      var r := EvalCommand(env, Abandon, t.next, h, fuel);
      TailReached(codes, t.tail, r.hist, fuel);
    }
  }

  lemma {:induction false} ChainPassed(codes: seq<int>, t: Tail, h: History, fuel: nat)
    requires SimpleTail(t) && |h| + AndCount(t) <= |codes|
    requires forall i :: |h| <= i < |h| + AndCount(t) ==> codes[i] == 0
    ensures var r := EvalTail(ExitWorld(codes), Abandon, t, h, 0, fuel);
      r.Finished? && |r.hist| == |h| + AndCount(t)
    decreases t
  {
    if t.More? && t.op.And? {
      var r := EvalCommand(ExitWorld(codes), Abandon, t.next, h, fuel);
      ChainPassed(codes, t.tail, r.hist, fuel);
    }
  }

  lemma {:induction false} CompoundReached(codes: seq<int>, s: Script, h: History, st: int, fuel: nat)
    requires AllVoiced(s) && !AllSimple(s) && |h| <= |codes| && codes[|h|..] == Path(s)
    ensures LostExit(EvalScript(ExitWorld(codes), Abandon, s, h, st, fuel))
    decreases s
  {
    var env := ExitWorld(codes);
    match s
    case Then(Blank, rest) => CompoundReached(codes, rest, h, st, fuel);
    case Then(AndOr(c, t), rest) =>
      if !c.Simple? {
        VoicedExits(codes, c, h, fuel);
      } else {
        assert codes[|h|] == codes[|h|..][0];
        var r := EvalSimple(env, c.argv, h);
        assert EvalCommand(env, Abandon, c, h, fuel) == r;
        if !SimpleTail(t) {
          TailReached(codes, t, r.hist, fuel);
        } else {
          var n := 1 + AndCount(t);
          assert forall i :: 0 <= i < n ==> codes[|h| + i] == codes[|h|..][i] == 0;
          ChainPassed(codes, t, r.hist, fuel);
          var r' := EvalChain(env, Abandon, s.unit, h, fuel);
          assert codes[|h| + n..] == codes[|h|..][n..] == Path(rest);
          CompoundReached(codes, rest, r'.hist, r'.code, fuel);
        }
      }
  }

  lemma {:induction false} SimpleEndsBare(env: Env, s: Script, h: History, st: int, fuel: nat)
    requires AllSimple(s) && EvalScript(env, Abandon, s, h, st, fuel).Exited?
    ensures EndsBare(env, s, h, st, fuel)
    decreases s
  {
    match s
    case Done =>
    case Then(Blank, rest) => SimpleEndsBare(env, rest, h, st, fuel);
    case Then(AndOr(c, t), rest) =>
      var r := EvalCommand(env, Abandon, c, h, fuel);
      if r.Finished? {
        var r' := EvalTail(env, Abandon, t, r.hist, r.code, fuel);
        if r'.Finished? {
          SimpleEndsBare(env, rest, r'.hist, r'.code, fuel);
        } else {
          SimpleTailEndsBare(env, t, r.hist, r.code, fuel);
        }
      }
  }

  lemma {:induction false} SimpleTailEndsBare(env: Env, t: Tail, h: History, st: int, fuel: nat)
    requires SimpleTail(t) && EvalTail(env, Abandon, t, h, st, fuel).Exited?
    ensures TailEndsBare(env, t, h, st, fuel)
    decreases t
  {
    var r := EvalCommand(env, Abandon, t.next, h, fuel);
    if r.Finished? {
      SimpleTailEndsBare(env, t.tail, r.hist, r.code, fuel);
    }
  }

  predicate ExitKept(r: Outcome) {
    r.Exited? ==> r.hist != [] && r.status == -LastCode(r.hist) - 2
  }

  /** A script keeps the status of its exits in all worlds exactly when it has no compound. */
  lemma ExitKeptIffSimple(s: Script)
    requires WfScript(s) && AllVoiced(s)
    ensures AllSimple(s) <==> forall env: Env, h: History, fuel: nat :: ExitKept(RunList(env, FlattenLine(s), h, fuel))
  {
    hide RunList;
    if AllSimple(s) {
      forall env: Env, h: History, fuel: nat
        ensures ExitKept(RunList(env, FlattenLine(s), h, fuel))
      {
        LineRuns(env, s, h, fuel);
        if RunList(env, FlattenLine(s), h, fuel).Exited? {
          SimpleEndsBare(env, s, h, 0, fuel);
          ExitStatus(env, s, h, fuel);
        }
      }
    } else {
      var codes := Path(s);
      assert codes[0..] == codes;
      CompoundReached(codes, s, [], 0, 0);
      LineRuns(ExitWorld(codes), s, [], 0);
      assert !ExitKept(RunList(ExitWorld(codes), FlattenLine(s), [], 0));
    }
  }
}
