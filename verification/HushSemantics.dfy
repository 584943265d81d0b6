/**
  The meaning of structured scripts, independent of flags and pipe lists: the
  lists and compound commands of POSIX.1-2017 Shell Command Language, sections
  2.9.3 and 2.9.4, and two readings of them that differ in the points named by
  Rule.
 */
module HushSemantics {
  import opened HushSyntax
  import opened HushMachine

  /**
    Posix: every operator of a chain looks at the status so far; an `if` none of
    whose arms is taken has status 0, a loop that of the last body it ran (0 if
    none); `exit` keeps its status.  LastRun: chains as in Posix, but the status
    of a compound command is that of the last command that ran in it, its
    conditions included, and `exit` inside a compound loses its status.  Abandon:
    as LastRun, but the first operator that does not want its command ends the
    chain.  (A body without any command, which POSIX has not, keeps the status so
    far under every rule.)
   */
  datatype Rule = Posix | LastRun | Abandon

  predicate Wants(op: Op, st: int) {
    if op.And? then st == 0 else st != 0
  }

  function EvalScript(env: Env, rule: Rule, s: Script, h: History, st: int, fuel: nat): Outcome
    decreases fuel, s, 0
  {
    match s
    case Done => Finished(h, st)
    case Then(Blank, rest) => EvalScript(env, rule, rest, h, st, fuel)
    case Then(AndOr(_, _), rest) =>
      assert s decreases to s.unit;
      match EvalChain(env, rule, s.unit, h, fuel)
      case Finished(h, st) => EvalScript(env, rule, rest, h, st, fuel)
      case r => r
  }

  function EvalChain(env: Env, rule: Rule, u: Unit, h: History, fuel: nat): Outcome
    requires u.AndOr?
    decreases fuel, u, 0
  {
    match EvalCommand(env, rule, u.first, h, fuel)
    case Finished(h, st) => EvalTail(env, rule, u.tail, h, st, fuel)
    case r => r
  }

  function EvalTail(env: Env, rule: Rule, t: Tail, h: History, st: int, fuel: nat): Outcome
    decreases fuel, t, 0
  {
    match t
    case End => Finished(h, st)
    case More(op, c, t') =>
      if Wants(op, st) then
        match EvalCommand(env, rule, c, h, fuel)
        case Finished(h, st) => EvalTail(env, rule, t', h, st, fuel)
        case r => r
      else if rule.Abandon? then Finished(h, st)
      else EvalTail(env, rule, t', h, st, fuel)
  }

  /** A simple command; codes below -1 leave the shell. */
  function EvalSimple(env: Env, argv: seq<string>, h: History): Outcome {
    var code := env.status(h, argv);
    var h := h + [Event(argv, code)];
    if code < -1 then Exited(h, -code - 2) else Finished(h, code)
  }

  /** A command's outcome. */
  function EvalCommand(env: Env, rule: Rule, c: Command, h: History, fuel: nat): Outcome
    decreases fuel, c, 2
  {
    if c.Simple? then EvalSimple(env, c.argv, h)
    else
      match EvalCompound(env, rule, c, h, fuel)
      case Exited(h, status) => Exited(h, if rule.Posix? then status else 0)
      case r => r
  }

  function EvalCompound(env: Env, rule: Rule, c: Command, h: History, fuel: nat): Outcome
    requires !c.Simple?
    decreases fuel, c, 1
  {
    match c
    case If(arms) => EvalArms(env, rule, arms, h, 0, fuel)
    case Loop(_, _, _) => EvalLoop(env, rule, c, h, 0, fuel)
    case For(name, raw, _, _) =>
      EvalFor(env, rule, c, if raw == [] then [] else Assignments(name, env.fields(h, raw)), h, 0, fuel)
  }

  /** The first arm whose condition succeeds, else the `else` part. */
  function EvalArms(env: Env, rule: Rule, a: Arms, h: History, st: int, fuel: nat): Outcome
    decreases fuel, a, 0
  {
    match a
    case Fi => Finished(h, if rule.Posix? then 0 else st)
    case Else(body) => EvalScript(env, rule, body, h, st, fuel)
    case Arm(cond, body, rest) =>
      match EvalScript(env, rule, cond, h, st, fuel)
      case Finished(h, st) =>
        if st == 0 then EvalScript(env, rule, body, h, st, fuel)
        else EvalArms(env, rule, rest, h, st, fuel)
      case r => r
  }

  /** Repeat the body while (until) the condition succeeds; st is the status of the last body. */
  function EvalLoop(env: Env, rule: Rule, c: Command, h: History, st: int, fuel: nat): Outcome
    requires c.Loop?
    decreases fuel, c, 0
  {
    match EvalScript(env, rule, c.cond, h, st, fuel)
    case Finished(h, code) =>
      if (code == 0) == c.until then Finished(h, if rule.Posix? then st else code)
      else
        (match EvalScript(env, rule, c.body, h, code, fuel)
         case Finished(h, st) =>
           if fuel == 0 then Unfinished(h) else EvalLoop(env, rule, c, h, st, fuel - 1)
         case r => r)
    case r => r
  }

  /** Assign each value in turn and run the body. */
  function EvalFor(env: Env, rule: Rule, c: Command, values: seq<string>, h: History, st: int, fuel: nat): Outcome
    requires c.For?
    decreases fuel, c, 0
  {
    if values == [] then Finished(h, st)
    else
      match EvalSimple(env, [values[0]], h)
      case Finished(h, st) =>
        (match EvalScript(env, rule, c.body, h, st, fuel)
         case Finished(h, st) =>
           if fuel == 0 then Unfinished(h) else EvalFor(env, rule, c, values[1..], h, st, fuel - 1)
         case r => r)
      case r => r
  }
}
