/**
  Worlds that steer a script, and with them the exact condition under which the
  shell's exit status is that of POSIX.
 */
module HushControl {
  import opened HushSyntax
  import opened HushMachine
  import opened HushSemantics
  import opened HushChains
  import opened HushStatus

  // ----- scripts all of whose parts can run -----

  /** Every body holds a command, as the grammar of POSIX demands, and every `for` has words. */
  predicate FullScript(s: Script) {
    match s
    case Done => true
    case Then(Blank, rest) => FullScript(rest)
    case Then(AndOr(c, t), rest) => FullCommand(c) && FullTail(t) && FullScript(rest)
  }

  predicate FullTail(t: Tail) {
    t.More? ==> FullCommand(t.next) && FullTail(t.tail)
  }

  predicate FullCommand(c: Command) {
    match c
    case Simple(_) => true
    case If(arms) => FullArms(arms)
    case Loop(_, cond, body) => FullScript(cond) && HasCommand(body) && FullScript(body)
    case For(_, raw, _, body) => raw != [] && HasCommand(body) && FullScript(body)
  }

  predicate FullArms(a: Arms) {
    match a
    case Fi => true
    case Else(body) => HasCommand(body) && FullScript(body)
    case Arm(cond, body, rest) => FullScript(cond) && HasCommand(body) && FullScript(body) && FullArms(rest)
  }

  // ----- steering -----

  function Code(z: bool): int { if z then 0 else 1 }

  /** Answers with which s runs to its end and, if it has a command, has status Code(z) in POSIX. */
  function Steer(s: Script, z: bool): seq<int> {
    match s
    case Done => []
    case Then(Blank, rest) => Steer(rest, z)
    case Then(AndOr(_, _), rest) =>
      assert s decreases to s.unit;
      SteerChain(s.unit, z || HasCommand(rest)) + Steer(rest, z)
  }

  function SteerChain(u: Unit, z: bool): seq<int>
    requires u.AndOr?
  {
    SteerCommand(u.first, z) + SteerTail(u.tail, z)
  }

  function SteerTail(t: Tail, z: bool): seq<int> {
    if t.More? && Wants(t.op, Code(z)) then SteerCommand(t.next, z) + SteerTail(t.tail, z) else []
  }

  /** The first arm is taken; a loop goes round once if it is to fail, and not at all otherwise. */
  function SteerCommand(c: Command, z: bool): seq<int> {
    match c
    case Simple(_) => [Code(z)]
    case If(arms) => if arms.Arm? then Steer(arms.cond, true) + Steer(arms.body, z) else []
    case Loop(until, cond, body) =>
      if z then Steer(cond, until) else Steer(cond, !until) + Steer(body, false) + Steer(cond, until)
    case For(_, _, _, body) => [0] + Steer(body, z)
  }

  /** Jumps back that steered runs need. */
  function Rounds(s: Script): nat {
    match s
    case Done => 0
    case Then(Blank, rest) => Rounds(rest)
    case Then(AndOr(c, t), rest) => CommandRounds(c) + TailRounds(t) + Rounds(rest)
  }

  function TailRounds(t: Tail): nat {
    if t.More? then CommandRounds(t.next) + TailRounds(t.tail) else 0
  }

  function CommandRounds(c: Command): nat {
    match c
    case Simple(_) => 0
    case If(arms) => ArmsRounds(arms)
    case Loop(_, cond, body) => 1 + Rounds(cond) + Rounds(body)
    case For(_, _, _, body) => 1 + Rounds(body)
  }

  function ArmsRounds(a: Arms): nat {
    match a
    case Fi => 0
    case Else(body) => Rounds(body)
    case Arm(cond, body, rest) => Rounds(cond) + Rounds(body) + ArmsRounds(rest)
  }

  /** A world that gives the answers of codes and then only 0; a list of words has one field. */
  function Scripted(codes: seq<int>): Env {
    Env((h: History, argv: seq<string>) => if |h| < |codes| then codes[|h|] else 0,
        (h: History, raw: seq<string>) => [""])
  }

  /** The answers from position n on are p. */
  predicate Next(codes: seq<int>, n: nat, p: seq<int>) {
    n + |p| <= |codes| && forall i :: 0 <= i < |p| ==> codes[n + i] == p[i]
  }

  lemma NextBoth(codes: seq<int>, n: nat, p: seq<int>, q: seq<int>)
    requires Next(codes, n, p + q)
    ensures Next(codes, n, p) && Next(codes, n + |p|, q)
  {
    forall i | 0 <= i < |p|
      ensures codes[n + i] == p[i]
    {
      assert (p + q)[i] == p[i];
    }
    forall i | 0 <= i < |q|
      ensures codes[n + |p| + i] == q[i]
    {
      assert (p + q)[|p| + i] == q[i];
    }
  }

  predicate Ends(r: Outcome, n: nat, code: int) {
    r.Finished? && |r.hist| == n && r.code == code
  }

  lemma {:induction false} ScriptSteered(codes: seq<int>, s: Script, z: bool, h: History, st: int, fuel: nat)
    requires WfScript(s) && PureScript(s) && FullScript(s)
    requires Next(codes, |h|, Steer(s, z)) && fuel >= Rounds(s)
    ensures Ends(EvalScript(Scripted(codes), Posix, s, h, st, fuel), |h| + |Steer(s, z)|,
        if HasCommand(s) then Code(z) else st)
    decreases s, 0
  {
    match s
    case Done =>
    case Then(Blank, rest) => ScriptSteered(codes, rest, z, h, st, fuel);
    case Then(AndOr(c, t), rest) =>
      assert s decreases to s.unit;
      var z' := z || HasCommand(rest);
      NextBoth(codes, |h|, SteerChain(s.unit, z'), Steer(rest, z));
      hide Next;
      ChainSteered(codes, s.unit, z', h, fuel);
      var r := EvalChain(Scripted(codes), Posix, s.unit, h, fuel);
      ScriptSteered(codes, rest, z, r.hist, r.code, fuel);
  }

  lemma {:induction false} ChainSteered(codes: seq<int>, u: Unit, z: bool, h: History, fuel: nat)
    requires u.AndOr? && WfCommand(u.first) && PureCommand(u.first) && FullCommand(u.first)
    requires WfTail(u.tail) && PureTail(u.tail) && PureCommands(u.tail) && FullTail(u.tail)
    requires Next(codes, |h|, SteerChain(u, z)) && fuel >= CommandRounds(u.first) + TailRounds(u.tail)
    ensures Ends(EvalChain(Scripted(codes), Posix, u, h, fuel), |h| + |SteerChain(u, z)|, Code(z))
    decreases u, 0
  {
    var c, t := u.first, u.tail;
    NextBoth(codes, |h|, SteerCommand(c, z), SteerTail(t, z));
    hide Next;
    CommandSteered(codes, c, z, h, fuel);
    var r := EvalCommand(Scripted(codes), Posix, c, h, fuel);
    TailSteered(codes, t, z, r.hist, fuel);
  }

  lemma {:induction false} TailSteered(codes: seq<int>, t: Tail, z: bool, h: History, fuel: nat)
    requires WfTail(t) && PureTail(t) && PureCommands(t) && FullTail(t)
    requires Next(codes, |h|, SteerTail(t, z)) && fuel >= TailRounds(t)
    ensures Ends(EvalTail(Scripted(codes), Posix, t, h, Code(z), fuel), |h| + |SteerTail(t, z)|, Code(z))
    decreases t, 0
  {
    if t.More? {
      if Wants(t.op, Code(z)) {
        NextBoth(codes, |h|, SteerCommand(t.next, z), SteerTail(t.tail, z));
        hide Next;
        CommandSteered(codes, t.next, z, h, fuel);
        var r := EvalCommand(Scripted(codes), Posix, t.next, h, fuel);
        TailSteered(codes, t.tail, z, r.hist, fuel);
      } else {
        UnwantedTail(Scripted(codes), Posix, t, h, Code(z), fuel);
      }
    }
  }

  lemma {:induction false} CommandSteered(codes: seq<int>, c: Command, z: bool, h: History, fuel: nat)
    requires WfCommand(c) && PureCommand(c) && FullCommand(c)
    requires Next(codes, |h|, SteerCommand(c, z)) && fuel >= CommandRounds(c)
    ensures Ends(EvalCommand(Scripted(codes), Posix, c, h, fuel), |h| + |SteerCommand(c, z)|, Code(z))
    decreases c, 1
  {
    match c
    case Simple(_) => assert SteerCommand(c, z)[0] == Code(z) && codes[|h| + 0] == Code(z);
    case If(arms) =>
      NextBoth(codes, |h|, Steer(arms.cond, true), Steer(arms.body, z));
      hide Next;
      ScriptSteered(codes, arms.cond, true, h, 0, fuel);
      var r := EvalScript(Scripted(codes), Posix, arms.cond, h, 0, fuel);
      ScriptSteered(codes, arms.body, z, r.hist, 0, fuel);
      assert EvalArms(Scripted(codes), Posix, arms, h, 0, fuel)
          == EvalScript(Scripted(codes), Posix, arms.body, r.hist, 0, fuel);
    case Loop(_, _, _) => LoopSteered(codes, c, z, h, fuel);
    case For(_, _, _, _) => ForSteered(codes, c, z, h, fuel);
  }

  lemma {:induction false} LoopSteered(codes: seq<int>, c: Command, z: bool, h: History, fuel: nat)
    requires c.Loop? && WfCommand(c) && PureCommand(c) && FullCommand(c)
    requires Next(codes, |h|, SteerCommand(c, z)) && fuel >= CommandRounds(c)
    ensures Ends(EvalLoop(Scripted(codes), Posix, c, h, 0, fuel), |h| + |SteerCommand(c, z)|, Code(z))
    decreases c, 0
  {
    var env := Scripted(codes);
    if z {
      ScriptSteered(codes, c.cond, c.until, h, 0, fuel);
    } else {
      NextBoth(codes, |h|, Steer(c.cond, !c.until) + Steer(c.body, false), Steer(c.cond, c.until));
      NextBoth(codes, |h|, Steer(c.cond, !c.until), Steer(c.body, false));
      hide Next;
      ScriptSteered(codes, c.cond, !c.until, h, 0, fuel);
      var r := EvalScript(env, Posix, c.cond, h, 0, fuel);
      ScriptSteered(codes, c.body, false, r.hist, r.code, fuel);
      var b := EvalScript(env, Posix, c.body, r.hist, r.code, fuel);
      ScriptSteered(codes, c.cond, c.until, b.hist, b.code, fuel - 1);
      assert EvalLoop(env, Posix, c, h, 0, fuel) == EvalLoop(env, Posix, c, b.hist, b.code, fuel - 1);
    }
  }

  /** The one value of a steered `for`. */
  function Value(c: Command): (v: string)
    requires c.For?
    ensures Assignments(c.name, [""]) == [v]
  {
    Assignments(c.name, [""])[0]
  }

  /** A steered `for` runs its body once. */
  lemma ForOnce(codes: seq<int>, rule: Rule, c: Command, h: History, fuel: nat)
    requires c.For? && c.raw != [] && Next(codes, |h|, [0]) && fuel > 0
    ensures var h1 := h + [Event([Value(c)], 0)];
      var r := EvalScript(Scripted(codes), rule, c.body, h1, 0, fuel);
      r.Finished? ==> EvalCommand(Scripted(codes), rule, c, h, fuel) == r
  {
    var env, h1 := Scripted(codes), h + [Event([Value(c)], 0)];
    assert [0][0] == 0 && codes[|h| + 0] == 0;
    assert EvalSimple(env, [Value(c)], h) == Finished(h1, 0);
    var r := EvalScript(env, rule, c.body, h1, 0, fuel);
    if r.Finished? {
      assert EvalFor(env, rule, c, [Value(c)], h, 0, fuel) ==
          EvalFor(env, rule, c, [Value(c)][1..], r.hist, r.code, fuel - 1);
    }
  }

  lemma {:induction false} ForSteered(codes: seq<int>, c: Command, z: bool, h: History, fuel: nat)
    requires c.For? && WfCommand(c) && PureCommand(c) && FullCommand(c)
    requires Next(codes, |h|, SteerCommand(c, z)) && fuel >= CommandRounds(c)
    ensures Ends(EvalCommand(Scripted(codes), Posix, c, h, fuel), |h| + |SteerCommand(c, z)|, Code(z))
    decreases c, 0
  {
    NextBoth(codes, |h|, [0], Steer(c.body, z));
    ForOnce(codes, Posix, c, h, fuel);
    hide EvalCommand, Next;
    ScriptSteered(codes, c.body, z, h + [Event([Value(c)], 0)], 0, fuel);
  }

  // ----- a world in which the statuses differ -----

  lemma {:induction false} NoCommandSafe(s: Script)
    requires !HasCommand(s)
    ensures SafeScript(s, true)
    decreases s
  {
    if s.Then? {
      NoCommandSafe(s.rest);
    }
  }

  /** Answers that lead to the end of s along a status that POSIX has otherwise. */
  function Differ(s: Script): seq<int> {
    match s
    case Done => []
    case Then(Blank, rest) => Differ(rest)
    case Then(AndOr(c, t), rest) =>
      assert s decreases to s.unit;
      if HasCommand(rest) then SteerChain(s.unit, true) + Differ(rest)
      else if t.End? then DifferCommand(c)
      else SteerCommand(c, t.op.And?) + DifferTail(t)
  }

  function DifferTail(t: Tail): seq<int>
    requires t.More?
  {
    if t.tail.End? then DifferCommand(t.next) else SteerCommand(t.next, t.op.And?) + DifferTail(t.tail)
  }

  function DifferCommand(c: Command): seq<int> {
    match c
    case Simple(_) => []
    case If(arms) => DifferArms(arms)
    case Loop(until, _, _) => SteerCommand(c, !until)
    case For(_, _, _, body) => [0] + Differ(body)
  }

  function DifferArms(a: Arms): seq<int> {
    match a
    case Fi => []
    case Else(body) => Differ(body)
    case Arm(cond, body, rest) =>
      if SafeScript(body, true) then Steer(cond, false) + DifferArms(rest) else Steer(cond, true) + Differ(body)
  }

  /** Both runs end with the same n events, one with success and one without. */
  predicate Split(r: Outcome, r': Outcome, n: nat) {
    r.Finished? && r'.Finished? && r.hist == r'.hist && |r.hist| == n && (r.code == 0) != (r'.code == 0)
  }

  lemma {:induction false} ScriptDiffers(codes: seq<int>, s: Script, h: History, st: int, st': int, fuel: nat)
    requires WfScript(s) && PureScript(s) && FullScript(s) && SafeScript(s, false) && !SafeScript(s, true)
    requires Next(codes, |h|, Differ(s)) && fuel >= Rounds(s)
    ensures var env := Scripted(codes);
      Split(EvalScript(env, Posix, s, h, st, fuel), EvalScript(env, LastRun, s, h, st', fuel), |h| + |Differ(s)|)
    decreases s, 0
  {
    var env := Scripted(codes);
    match s
    case Then(Blank, rest) => ScriptDiffers(codes, rest, h, st, st', fuel);
    case Then(AndOr(c, t), rest) =>
      assert s decreases to s.unit;
      if HasCommand(rest) {
        NextBoth(codes, |h|, SteerChain(s.unit, true), Differ(rest));
        hide Next;
        ChainSteered(codes, s.unit, true, h, fuel);
        ChainAlike(env, s.unit, false, h, fuel);
        var r, r' := EvalChain(env, Posix, s.unit, h, fuel), EvalChain(env, LastRun, s.unit, h, fuel);
        ScriptDiffers(codes, rest, r.hist, r.code, r'.code, fuel);
      } else {
        NoCommandSafe(rest);
        ChainDiffers(codes, s.unit, h, fuel);
        var r, r' := EvalChain(env, Posix, s.unit, h, fuel), EvalChain(env, LastRun, s.unit, h, fuel);
        Idle(env, Posix, rest, r.hist, r.code, fuel);
        Idle(env, LastRun, rest, r'.hist, r'.code, fuel);
      }
  }

  lemma {:induction false} Idle(env: Env, rule: Rule, s: Script, h: History, st: int, fuel: nat)
    requires !HasCommand(s)
    ensures EvalScript(env, rule, s, h, st, fuel) == Finished(h, st)
    decreases s
  {
    if s.Then? {
      Idle(env, rule, s.rest, h, st, fuel);
    }
  }

  lemma {:induction false} ChainDiffers(codes: seq<int>, u: Unit, h: History, fuel: nat)
    requires u.AndOr? && WfCommand(u.first) && PureCommand(u.first) && FullCommand(u.first)
    requires WfTail(u.tail) && PureTail(u.tail) && PureCommands(u.tail) && FullTail(u.tail)
    requires SafeCommand(u.first, u.tail.More?) && SafeTail(u.tail, false)
    requires u.tail.End? ==> !SafeCommand(u.first, true)
    requires u.tail.More? ==> !SafeTail(u.tail, true)
    requires Next(codes, |h|, Differ(Then(u, Done))) && fuel >= CommandRounds(u.first) + TailRounds(u.tail)
    ensures var env := Scripted(codes);
      Split(EvalChain(env, Posix, u, h, fuel), EvalChain(env, LastRun, u, h, fuel), |h| + |Differ(Then(u, Done))|)
    decreases u, 0
  {
    var env, c, t := Scripted(codes), u.first, u.tail;
    if t.End? {
      CommandDiffers(codes, c, h, fuel);
    } else {
      NextBoth(codes, |h|, SteerCommand(c, t.op.And?), DifferTail(t));
      hide Next;
      CommandSteered(codes, c, t.op.And?, h, fuel);
      CommandAlike(env, c, true, h, fuel);
      var r := EvalCommand(env, Posix, c, h, fuel);
      TailDiffers(codes, t, r.hist, fuel);
    }
  }

  lemma {:induction false} TailDiffers(codes: seq<int>, t: Tail, h: History, fuel: nat)
    requires t.More? && WfTail(t) && PureTail(t) && PureCommands(t) && FullTail(t)
    requires SafeTail(t, false) && !SafeTail(t, true)
    requires Next(codes, |h|, DifferTail(t)) && fuel >= TailRounds(t)
    ensures var env, st := Scripted(codes), Code(t.op.And?);
      Split(EvalTail(env, Posix, t, h, st, fuel), EvalTail(env, LastRun, t, h, st, fuel), |h| + |DifferTail(t)|)
    decreases t, 0
  {
    var env, c := Scripted(codes), t.next;
    if t.tail.End? {
      CommandDiffers(codes, c, h, fuel);
    } else {
      NextBoth(codes, |h|, SteerCommand(c, t.op.And?), DifferTail(t.tail));
      hide Next;
      CommandSteered(codes, c, t.op.And?, h, fuel);
      CommandAlike(env, c, true, h, fuel);
      var r := EvalCommand(env, Posix, c, h, fuel);
      TailDiffers(codes, t.tail, r.hist, fuel);
    }
  }

  lemma {:induction false} CommandDiffers(codes: seq<int>, c: Command, h: History, fuel: nat)
    requires WfCommand(c) && PureCommand(c) && FullCommand(c) && SafeCommand(c, false) && !SafeCommand(c, true)
    requires Next(codes, |h|, DifferCommand(c)) && fuel >= CommandRounds(c)
    ensures var env := Scripted(codes);
      Split(EvalCommand(env, Posix, c, h, fuel), EvalCommand(env, LastRun, c, h, fuel), |h| + |DifferCommand(c)|)
    decreases c, 1
  {
    var env := Scripted(codes);
    match c
    case If(arms) => ArmsDiffer(codes, arms, h, 0, fuel);
    case Loop(_, _, _) =>
      CommandSteered(codes, c, !c.until, h, fuel);
      CommandAlike(env, c, false, h, fuel);
      CommandAgrees(env, c, h, fuel);
      LoopStatus(env, c, h, 0, fuel);
    case For(_, _, _, body) =>
      NextBoth(codes, |h|, [0], Differ(body));
      ForOnce(codes, Posix, c, h, fuel);
      ForOnce(codes, LastRun, c, h, fuel);
      hide EvalCommand, Next;
      ScriptDiffers(codes, body, h + [Event([Value(c)], 0)], 0, 0, fuel);
  }

  lemma {:induction false} ArmsDiffer(codes: seq<int>, a: Arms, h: History, st: int, fuel: nat)
    requires WfArms(a) && PureArms(a) && FullArms(a) && SafeArms(a, false) && !SafeArms(a, true)
    requires a.Fi? ==> st != 0
    requires Next(codes, |h|, DifferArms(a)) && fuel >= ArmsRounds(a)
    ensures var env := Scripted(codes);
      Split(EvalArms(env, Posix, a, h, st, fuel), EvalArms(env, LastRun, a, h, st, fuel), |h| + |DifferArms(a)|)
    decreases a, 0
  {
    var env := Scripted(codes);
    match a
    case Fi =>
    case Else(body) => ScriptDiffers(codes, body, h, st, st, fuel);
    case Arm(cond, body, rest) =>
      var z := !SafeScript(body, true);
      NextBoth(codes, |h|, Steer(cond, z), if z then Differ(body) else DifferArms(rest));
      hide Next;
      ScriptSteered(codes, cond, z, h, st, fuel);
      ScriptAlike(env, cond, true, h, st, st, fuel);
      var r := EvalScript(env, Posix, cond, h, st, fuel);
      if z {
        ScriptDiffers(codes, body, r.hist, r.code, r.code, fuel);
      } else {
        ArmsDiffer(codes, rest, r.hist, r.code, fuel);
      }
  }

  // ----- the exact conditions -----

  /** In every world s runs as POSIX demands, up to and with its exit status. */
  ghost predicate RunsAsPosix(s: Script) {
    forall env: Env, h: History, fuel: nat ::
      Alike(true, EvalScript(env, Posix, s, h, 0, fuel), RunList(env, FlattenLine(s), h, fuel))
  }

  lemma SafeRuns(s: Script)
    requires WfScript(s) && PureScript(s) && SafeScript(s, true)
    ensures RunsAsPosix(s)
  {
    hide EvalScript, RunList, Alike, SafeScript, WfScript, PureScript;
    forall env: Env, h: History, fuel: nat
      ensures Alike(true, EvalScript(env, Posix, s, h, 0, fuel), RunList(env, FlattenLine(s), h, fuel))
    {
      ShellIsPosix(env, s, true, h, fuel);
    }
  }

  /**
    A script of any depth whose differing statuses are not read inside it has the
    exit status of POSIX in all worlds exactly when none stands at its end.
   */
  lemma StatusIffSafe(s: Script)
    requires WfScript(s) && PureScript(s) && FullScript(s) && SafeScript(s, false)
    ensures SafeScript(s, true) <==> RunsAsPosix(s)
  {
    hide EvalScript, RunList;
    if SafeScript(s, true) {
      SafeRuns(s);
    } else {
      var codes, n := Differ(s), Rounds(s);
      ScriptDiffers(codes, s, [], 0, 0, n);
      PureChainsFollowed(Scripted(codes), s, [], n);
      assert !Alike(true, EvalScript(Scripted(codes), Posix, s, [], 0, n),
          RunList(Scripted(codes), FlattenLine(s), [], n));
    }
  }

  lemma {:induction false} Speaks(s: Script, z: bool)
    requires WfScript(s) && HasCommand(s)
    ensures Steer(s, z) != []
    decreases s, 0
  {
    if s.unit.Blank? {
      Speaks(s.rest, z);
    } else {
      CommandSpeaks(s.unit.first, z || HasCommand(s.rest));
    }
  }

  lemma {:induction false} CommandSpeaks(c: Command, z: bool)
    requires WfCommand(c)
    ensures SteerCommand(c, z) != []
    decreases c, 0
  {
    match c
    case Simple(_) =>
    case If(arms) => Speaks(arms.cond, true);
    case Loop(until, cond, _) => Speaks(cond, if z then until else !until);
    case For(_, _, _, _) =>
  }

  /** A wanted tail runs something under either rule, an unwanted one nothing. */
  lemma TailShows(codes: seq<int>, t: Tail, h: History, st: int, st': int, fuel: nat)
    requires t.More? && WfTail(t) && PureTail(t) && PureCommands(t) && FullTail(t) && SafeTail(t, true)
    requires Next(codes, |h|, SteerTail(t, t.op.And?)) && fuel >= TailRounds(t) && (st == 0) != (st' == 0)
    ensures var env := Scripted(codes);
      EvalTail(env, Posix, t, h, st, fuel).hist != EvalTail(env, LastRun, t, h, st', fuel).hist
  {
    var env, wanted := Scripted(codes), Code(t.op.And?);
    TailSteered(codes, t, t.op.And?, h, fuel);
    CommandSpeaks(t.next, t.op.And?);
    TailAlike(env, t, true, h, wanted, wanted, fuel);
    if Wants(t.op, st) {
      UnwantedTail(env, LastRun, t, h, st', fuel);
      assert EvalTail(env, Posix, t, h, st, fuel) == EvalTail(env, Posix, t, h, wanted, fuel);
    } else {
      UnwantedTail(env, Posix, t, h, st, fuel);
      assert EvalTail(env, LastRun, t, h, st', fuel) == EvalTail(env, LastRun, t, h, wanted, fuel);
    }
  }

  lemma ChainAlone(env: Env, rule: Rule, c: Command, t: Tail, h: History, fuel: nat)
    ensures EvalScript(env, rule, Then(AndOr(c, t), Done), h, 0, fuel) == EvalChain(env, rule, AndOr(c, t), h, fuel)
  {
    var r := EvalChain(env, rule, AndOr(c, t), h, fuel);
    if r.Finished? {
      assert EvalScript(env, rule, Done, r.hist, r.code, fuel) == r;
    }
  }

  lemma LineSafe(c: Command, t: Tail)
    requires WfCommand(c) && PureCommand(c) && SafeCommand(c, true)
    requires WfTail(t) && PureTail(t) && PureCommands(t) && SafeTail(t, true)
    ensures var s := Then(AndOr(c, t), Done);
      WfScript(s) && PureScript(s) && SafeScript(s, true)
  {
    hide WfCommand, PureCommand, SafeCommand, WfTail, PureTail, PureCommands, SafeTail;
    var s := Then(AndOr(c, t), Done);
    assert WfScript(s) by {
      assert WfScript(Done);
    }
    assert PureScript(s) by {
      assert PureScript(Done);
    }
    assert SafeScript(s, true) by {
      assert SafeScript(Done, true) && !HasCommand(Done);
    }
  }

  lemma LineDiffers(c: Command, t: Tail)
    requires WfCommand(c) && PureCommand(c) && FullCommand(c) && SafeCommand(c, false) && !SafeCommand(c, true)
    requires WfTail(t) && PureTail(t) && PureCommands(t) && FullTail(t) && SafeTail(t, true)
    ensures !RunsAsPosix(Then(AndOr(c, t), Done))
  {
    var s, p := Then(AndOr(c, t), Done), DifferCommand(c);
    var codes, n := p + if t.More? then SteerTail(t, t.op.And?) else [], CommandRounds(c) + TailRounds(t);
    var env := Scripted(codes);
    assert WfScript(s) && PureScript(s) by {
      assert WfScript(Done) && PureScript(Done);
    }
    PureChainsFollowed(env, s, [], n);
    ChainAlone(env, Posix, c, t, [], n);
    ChainAlone(env, LastRun, c, t, [], n);
    CommandDiffers(codes, c, [], n);
    hide RunList;
    var r, r' := EvalCommand(env, Posix, c, [], n), EvalCommand(env, LastRun, c, [], n);
    if t.More? {
      TailShows(codes, t, r.hist, r.code, r'.code, n);
    }
    assert !Alike(true, EvalScript(env, Posix, s, [], 0, n), RunList(env, FlattenLine(s), [], n));
  }

  /**
    A compound of any depth, alone on its line or in front of a chain, is run as
    POSIX demands in all worlds exactly when no `while`, `until` or else-less `if`
    gives it its status.
   */
  lemma PosixIffStatusKept(c: Command, t: Tail)
    requires WfCommand(c) && PureCommand(c) && FullCommand(c) && SafeCommand(c, false)
    requires WfTail(t) && PureTail(t) && PureCommands(t) && FullTail(t) && SafeTail(t, true)
    ensures SafeCommand(c, true) <==> RunsAsPosix(Then(AndOr(c, t), Done))
  {
    hide *;
    if SafeCommand(c, true) {
      LineSafe(c, t);
      SafeRuns(Then(AndOr(c, t), Done));
    } else {
      LineDiffers(c, t);
    }
  }

  // ----- a status that is read without effect -----

  lemma SingleIsSafe(a: seq<string>, read: bool)
    ensures var s := Single(a);
      WfScript(s) && HasCommand(s) && PureScript(s) && FullScript(s) && SafeScript(s, read)
  {
    UnitWf(a);
    assert PureTail(End) && PureCommands(End) && PureCommand(Simple(a)) && PureScript(Done);
    assert FullTail(End) && FullCommand(Simple(a)) && FullScript(Done);
    assert SafeTail(End, read) && SafeCommand(Simple(a), read) && SafeScript(Done, read);
  }

  /** `while a; do b; done` as a condition. */
  function Waiting(a: seq<string>, b: seq<string>): Script {
    Then(AndOr(Loop(false, Single(a), Single(b)), End), Done)
  }

  lemma WaitingIsSafe(a: seq<string>, b: seq<string>)
    ensures var s := Waiting(a, b);
      WfScript(s) && HasCommand(s) && PureScript(s) && FullScript(s) && SafeScript(s, false) && !SafeScript(s, true)
  {
    SingleIsSafe(a, true);
    SingleIsSafe(b, false);
    var c := Loop(false, Single(a), Single(b));
    assert WfCommand(c) && WfTail(End) && WfScript(Done);
    assert PureTail(End) && PureCommands(End) && PureCommand(c) && PureScript(Done);
    assert FullTail(End) && FullCommand(c) && FullScript(Done);
    assert SafeTail(End, false) && SafeCommand(c, false) && SafeScript(Done, false);
    assert !SafeCommand(c, true) && !HasCommand(Done);
  }

  /**
    `if while a; do b; done; then d; else d; fi`: the shell takes the other branch
    than POSIX, and nobody can tell.  So a status that is read in a condition need
    not show, and SafeScript is not necessary for it.
   */
  lemma SameBranchesHide(a: seq<string>, b: seq<string>, d: seq<string>)
    ensures var c := If(Arm(Waiting(a, b), Single(d), Else(Single(d))));
      FullCommand(c) && !SafeCommand(c, false) && RunsAsPosix(Then(AndOr(c, End), Done))
  {
    var arms := Arm(Waiting(a, b), Single(d), Else(Single(d)));
    var c, s := If(arms), Then(AndOr(If(arms), End), Done);
    SameArmsFit(a, b, d);
    assert WfScript(s) && PureScript(s) by {
      assert WfTail(End) && PureTail(End) && PureCommands(End) && WfScript(Done) && PureScript(Done);
    }
    forall env: Env, h: History, fuel: nat
      ensures Alike(true, EvalScript(env, Posix, s, h, 0, fuel), RunList(env, FlattenLine(s), h, fuel))
    {
      PureChainsFollowed(env, s, h, fuel);
      CompoundAlone(env, Posix, arms, h, fuel);
      CompoundAlone(env, LastRun, arms, h, fuel);
      hide RunList, EvalScript, EvalArms;
      SameArms(env, a, b, d, h, fuel);
    }
  }

  lemma CompoundAlone(env: Env, rule: Rule, arms: Arms, h: History, fuel: nat)
    ensures var r, r' := EvalScript(env, rule, Then(AndOr(If(arms), End), Done), h, 0, fuel),
        EvalArms(env, rule, arms, h, 0, fuel);
      r'.hist == r.hist && (r'.Exited? == r.Exited?) && (r'.Finished? || r.Finished? ==> r == r')
  {
    ChainAlone(env, rule, If(arms), End, h, fuel);
    var r := EvalCommand(env, rule, If(arms), h, fuel);
    assert EvalCompound(env, rule, If(arms), h, fuel) == EvalArms(env, rule, arms, h, 0, fuel);
    if r.Finished? {
      assert EvalTail(env, rule, End, r.hist, r.code, fuel) == r;
    }
    assert EvalChain(env, rule, AndOr(If(arms), End), h, fuel) == r;
  }

  lemma SameArmsFit(a: seq<string>, b: seq<string>, d: seq<string>)
    ensures var arms := Arm(Waiting(a, b), Single(d), Else(Single(d)));
      WfArms(arms) && PureArms(arms) && FullArms(arms) && !SafeArms(arms, false)
  {
    WaitingIsSafe(a, b);
    SingleIsSafe(d, true);
    var last := Else(Single(d));
    assert WfArms(last) && PureArms(last) && FullArms(last);
    hide WfScript, PureScript, FullScript, SafeScript, HasCommand;
  }

  lemma SameArms(env: Env, a: seq<string>, b: seq<string>, d: seq<string>, h: History, fuel: nat)
    ensures var arms := Arm(Waiting(a, b), Single(d), Else(Single(d)));
      Alike(true, EvalArms(env, Posix, arms, h, 0, fuel), EvalArms(env, LastRun, arms, h, 0, fuel))
  {
    WaitingIsSafe(a, b);
    ScriptAlike(env, Waiting(a, b), false, h, 0, 0, fuel);
    var r, r' := EvalScript(env, Posix, Waiting(a, b), h, 0, fuel), EvalScript(env, LastRun, Waiting(a, b), h, 0, fuel);
    if r.Finished? {
      var e := EvalSimple(env, d, r.hist);
      forall rule: Rule, st: int
        ensures EvalScript(env, rule, Single(d), r.hist, st, fuel) == e
        ensures EvalArms(env, rule, Else(Single(d)), r.hist, st, fuel) == e
      {
        UnitRuns(env, rule, d, r.hist, st, fuel);
      }
      var arms := Arm(Waiting(a, b), Single(d), Else(Single(d)));
      assert EvalArms(env, Posix, arms, h, 0, fuel) == e;
      assert EvalArms(env, LastRun, arms, h, 0, fuel) == e;
    }
  }
}
