/**
  Exit statuses.  run_list_real gives a compound command the status of the last
  command that ran in it, POSIX that of the last body (0 if none).  Here is what
  that changes, and exactly when it changes nothing.
 */
module HushStatus {
  import opened HushSyntax
  import opened HushMachine
  import opened HushSemantics
  import opened HushRefinement
  import opened HushChains

  // ----- scripts in which no differing status is read -----

  /**
    No `while`, `until` or else-less `if` stands where its status is read: in
    front of an operator, last in a condition, or, with read set, last in s.
   */
  predicate SafeScript(s: Script, read: bool) {
    match s
    case Done => true
    case Then(Blank, rest) => SafeScript(rest, read)
    case Then(AndOr(c, t), rest) =>
      var last := read && !HasCommand(rest);
      SafeCommand(c, last || t.More?) && SafeTail(t, last) && SafeScript(rest, read)
  }

  predicate SafeTail(t: Tail, read: bool) {
    t.More? ==> SafeCommand(t.next, read || t.tail.More?) && SafeTail(t.tail, read)
  }

  predicate SafeCommand(c: Command, read: bool) {
    match c
    case Simple(_) => true
    case If(arms) => SafeArms(arms, read)
    case Loop(_, cond, body) => !read && SafeScript(cond, true) && SafeScript(body, false)
    case For(_, _, _, body) => SafeScript(body, read)
  }

  predicate SafeArms(a: Arms, read: bool) {
    match a
    case Fi => !read
    case Else(body) => SafeScript(body, read)
    case Arm(cond, body, rest) => SafeScript(cond, true) && SafeScript(body, read) && SafeArms(rest, read)
  }

  /** The same commands ran and the runs ended the same way; with read set, with the same status. */
  predicate Alike(read: bool, r: Outcome, r': Outcome) {
    && r.hist == r'.hist && r.Finished? == r'.Finished? && r.Exited? == r'.Exited?
    && (read && r.Finished? ==> r.code == r'.code)
  }

  lemma {:induction false} ScriptAlike(env: Env, s: Script, read: bool, h: History, st: int, st': int, fuel: nat)
    requires WfScript(s) && SafeScript(s, read)
    requires read && !HasCommand(s) ==> st == st'
    ensures Alike(read, EvalScript(env, Posix, s, h, st, fuel), EvalScript(env, LastRun, s, h, st', fuel))
    decreases fuel, s, 0
  {
    match s
    case Done =>
    case Then(Blank, rest) => ScriptAlike(env, rest, read, h, st, st', fuel);
    case Then(AndOr(c, t), rest) =>
      assert s decreases to s.unit;
      ChainAlike(env, s.unit, read && !HasCommand(rest), h, fuel);
      var r, r' := EvalChain(env, Posix, s.unit, h, fuel), EvalChain(env, LastRun, s.unit, h, fuel);
      if r.Finished? {
        ScriptAlike(env, rest, read, r.hist, r.code, r'.code, fuel);
      }
  }

  lemma {:induction false} ChainAlike(env: Env, u: Unit, read: bool, h: History, fuel: nat)
    requires u.AndOr? && WfCommand(u.first) && WfTail(u.tail)
    requires SafeCommand(u.first, read || u.tail.More?) && SafeTail(u.tail, read)
    ensures Alike(read, EvalChain(env, Posix, u, h, fuel), EvalChain(env, LastRun, u, h, fuel))
    decreases fuel, u, 0
  {
    CommandAlike(env, u.first, read || u.tail.More?, h, fuel);
    var r, r' := EvalCommand(env, Posix, u.first, h, fuel), EvalCommand(env, LastRun, u.first, h, fuel);
    if r.Finished? {
      TailAlike(env, u.tail, read, r.hist, r.code, r'.code, fuel);
    }
  }

  lemma {:induction false} TailAlike(env: Env, t: Tail, read: bool, h: History, st: int, st': int, fuel: nat)
    requires WfTail(t) && SafeTail(t, read) && (read || t.More? ==> st == st')
    ensures Alike(read, EvalTail(env, Posix, t, h, st, fuel), EvalTail(env, LastRun, t, h, st', fuel))
    decreases fuel, t, 0
  {
    if t.More? {
      if Wants(t.op, st) {
        CommandAlike(env, t.next, read || t.tail.More?, h, fuel);
        var r, r' := EvalCommand(env, Posix, t.next, h, fuel), EvalCommand(env, LastRun, t.next, h, fuel);
        if r.Finished? {
          TailAlike(env, t.tail, read, r.hist, r.code, r'.code, fuel);
        }
      } else {
        TailAlike(env, t.tail, read, h, st, st', fuel);
      }
    }
  }

  lemma {:induction false} CommandAlike(env: Env, c: Command, read: bool, h: History, fuel: nat)
    requires WfCommand(c) && SafeCommand(c, read)
    ensures Alike(read, EvalCommand(env, Posix, c, h, fuel), EvalCommand(env, LastRun, c, h, fuel))
    decreases fuel, c, 2
  {
    match c
    case Simple(_) =>
    case If(arms) => ArmsAlike(env, arms, read, h, 0, fuel);
    case Loop(_, _, _) => LoopAlike(env, c, h, 0, 0, fuel);
    case For(name, raw, _, _) =>
      ForAlike(env, c, read, if raw == [] then [] else Assignments(name, env.fields(h, raw)), h, 0, 0, fuel);
  }

  lemma {:induction false} ArmsAlike(env: Env, a: Arms, read: bool, h: History, st: int, fuel: nat)
    requires WfArms(a) && SafeArms(a, read)
    ensures Alike(read, EvalArms(env, Posix, a, h, st, fuel), EvalArms(env, LastRun, a, h, st, fuel))
    decreases fuel, a, 0
  {
    match a
    case Fi =>
    case Else(body) => ScriptAlike(env, body, read, h, st, st, fuel);
    case Arm(cond, body, rest) =>
      ScriptAlike(env, cond, true, h, st, st, fuel);
      var r := EvalScript(env, Posix, cond, h, st, fuel);
      if r.Finished? {
        ScriptAlike(env, body, read, r.hist, r.code, r.code, fuel);
        ArmsAlike(env, rest, read, r.hist, r.code, fuel);
      }
  }

  lemma {:induction false} LoopAlike(env: Env, c: Command, h: History, st: int, st': int, fuel: nat)
    requires c.Loop? && WfCommand(c) && SafeCommand(c, false)
    ensures Alike(false, EvalLoop(env, Posix, c, h, st, fuel), EvalLoop(env, LastRun, c, h, st', fuel))
    decreases fuel, c, 0
  {
    ScriptAlike(env, c.cond, true, h, st, st', fuel);
    var r := EvalScript(env, Posix, c.cond, h, st, fuel);
    if r.Finished? && (r.code == 0) != c.until {
      ScriptAlike(env, c.body, false, r.hist, r.code, r.code, fuel);
      var b, b' := EvalScript(env, Posix, c.body, r.hist, r.code, fuel),
          EvalScript(env, LastRun, c.body, r.hist, r.code, fuel);
      if b.Finished? && fuel > 0 {
        LoopAlike(env, c, b.hist, b.code, b'.code, fuel - 1);
      }
    }
  }

  lemma {:induction false} ForAlike(env: Env, c: Command, read: bool, vs: seq<string>, h: History, st: int,
      st': int, fuel: nat)
    requires c.For? && WfCommand(c) && SafeCommand(c, read) && (read ==> st == st')
    ensures Alike(read, EvalFor(env, Posix, c, vs, h, st, fuel), EvalFor(env, LastRun, c, vs, h, st', fuel))
    decreases fuel, c, 0
  {
    if vs != [] {
      var r := EvalSimple(env, [vs[0]], h);
      if r.Finished? {
        ScriptAlike(env, c.body, read, r.hist, r.code, r.code, fuel);
        var b, b' := EvalScript(env, Posix, c.body, r.hist, r.code, fuel),
            EvalScript(env, LastRun, c.body, r.hist, r.code, fuel);
        if b.Finished? && fuel > 0 {
          ForAlike(env, c, read, vs[1..], b.hist, b.code, b'.code, fuel - 1);
        }
      }
    }
  }

  /**
    The shell runs a script as POSIX demands if its chains have one operator and
    no differing status is read inside it; its status is that of POSIX if, in
    addition, none is read at its end.
   */
  lemma ShellIsPosix(env: Env, s: Script, read: bool, h: History, fuel: nat)
    requires WfScript(s) && PureScript(s) && SafeScript(s, read)
    ensures Alike(read, EvalScript(env, Posix, s, h, 0, fuel), RunList(env, FlattenLine(s), h, fuel))
  {
    PureChainsFollowed(env, s, h, fuel);
    ScriptAlike(env, s, read, h, 0, 0, fuel);
  }

  // ----- where statuses differ -----

  /** A finished `while` never has status 0 here, and a finished `until` always has. */
  lemma {:induction false} LoopStatus(env: Env, c: Command, h: History, st: int, fuel: nat)
    requires c.Loop?
    ensures var r := EvalLoop(env, Abandon, c, h, st, fuel);
      r.Finished? ==> (r.code == 0) == c.until
    decreases fuel
  {
    var r := EvalScript(env, Abandon, c.cond, h, st, fuel);
    if r.Finished? {
      var b := EvalScript(env, Abandon, c.body, r.hist, r.code, fuel);
      if b.Finished? && fuel > 0 {
        LoopStatus(env, c, b.hist, b.code, fuel - 1);
      }
    }
  }

  /** One simple command and its `;`. */
  function Single(argv: seq<string>): Script {
    Then(AndOr(Simple(argv), End), Done)
  }

  lemma UnitWf(argv: seq<string>)
    ensures WfScript(Single(argv)) && HasCommand(Single(argv))
  {
    assert WfTail(End) && WfCommand(Simple(argv)) && WfScript(Done);
  }

  /** `if a; then b; fi && c`: when `a` fails, POSIX goes on with `c` and the shell does not. */
  lemma UntakenIfDiffers(env: Env, a: seq<string>, b: seq<string>, c: seq<string>, h: History, fuel: nat)
    requires env.status(h, a) >= -1 && env.status(h, a) != 0
    ensures var s := Then(AndOr(If(Arm(Single(a), Single(b), Fi)), More(And, Simple(c), End)), Done);
      var h1 := h + [Event(a, env.status(h, a))];
      && RunList(env, FlattenLine(s), h, fuel) == Finished(h1, env.status(h, a))
      && EvalScript(env, Posix, s, h, 0, fuel).hist == h1 + [Event(c, env.status(h1, c))]
  {
    var arms := Arm(Single(a), Single(b), Fi);
    var s := Then(AndOr(If(arms), More(And, Simple(c), End)), Done);
    var st, h1 := env.status(h, a), h + [Event(a, env.status(h, a))];
    UnitWf(a);
    UnitWf(b);
    assert WfArms(arms) && WfScript(s) by {
      assert WfArms(Fi) && WfTail(End) && WfCommand(Simple(c)) && WfTail(s.unit.tail) && WfScript(Done);
    }
    LineRuns(env, s, h, fuel);
    hide RunList;
    forall rule: Rule
      ensures EvalCommand(env, rule, If(arms), h, fuel) == Finished(h1, if rule.Posix? then 0 else st)
    {
      UnitRuns(env, rule, a, h, 0, fuel);
      assert EvalArms(env, rule, Fi, h1, st, fuel) == Finished(h1, if rule.Posix? then 0 else st);
      assert EvalArms(env, rule, arms, h, 0, fuel) == EvalArms(env, rule, Fi, h1, st, fuel);
    }
    assert EvalChain(env, Abandon, s.unit, h, fuel) == Finished(h1, st);
    var r := EvalSimple(env, c, h1);
    assert EvalCommand(env, Posix, Simple(c), h1, fuel) == r;
    assert EvalTail(env, Posix, s.unit.tail, h1, 0, fuel) == r by {
      if r.Finished? {
        assert EvalTail(env, Posix, End, r.hist, r.code, fuel) == r;
      }
    }
    assert EvalChain(env, Posix, s.unit, h, fuel) == r;
    if r.Finished? {
      assert EvalScript(env, Posix, Done, r.hist, r.code, fuel) == r;
    }
  }

  lemma UnitRuns(env: Env, rule: Rule, a: seq<string>, h: History, st: int, fuel: nat)
    ensures EvalScript(env, rule, Single(a), h, st, fuel) == EvalSimple(env, a, h)
  {
    var u := AndOr(Simple(a), End);
    assert EvalCommand(env, rule, Simple(a), h, fuel) == EvalSimple(env, a, h);
    assert EvalChain(env, rule, u, h, fuel) == EvalSimple(env, a, h);
    var r := EvalSimple(env, a, h);
    if r.Finished? {
      assert EvalScript(env, rule, Done, r.hist, r.code, fuel) == r;
    }
  }
}
