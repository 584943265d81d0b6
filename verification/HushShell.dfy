/**
  run_list_real and run_pipe_real as they are written: a loop over mutable
  flags, recursive through command groups, in a shell that records what it runs.
 */
module HushShell {
  import opened Options
  import opened HushSyntax
  import opened HushMachine
  import opened HushSemantics
  import opened HushChains
  import opened HushStatus

  /** A bound that was enough stays enough, so the bound is no part of a finished run's meaning. */
  lemma {:induction false} BoundIrrelevant(env: Env, list: seq<Pipe>, k: nat, f: Flags, h: History, fuel: nat)
    requires k <= |list| && ForSyntaxOk(list) && ValidFlags(list, f)
    requires !RunFrom(env, list, k, f, h, fuel).Unfinished?
    ensures RunFrom(env, list, k, f, h, fuel + 1) == RunFrom(env, list, k, f, h, fuel)
    decreases fuel, list, |list| - k, 1
  {
    hide Next, Decide;
    if k < |list| {
      var f := AtHead(list[k].mode, k, f);
      assert ForPipeOk(list, k);
      match Decide(env, list, k, f, h)
      case Stop =>
      case Pass(f) => NextIrrelevant(env, list, k, f, h, fuel);
      case Exec(prog, f) =>
        assert list decreases to list[k];
        assert list[k] decreases to list[k].prog;
        if prog.Group? {
          ListBoundIrrelevant(env, list[k].prog.list, h, fuel);
        }
        var r := if prog.Words? then RunWords(env, prog.argv, h) else RunList(env, prog.list, h, fuel);
        if r.Finished? && r.code >= -1 {
          NextIrrelevant(env, list, k, Record(list[k], f, r.code), r.hist, fuel);
        }
    }
  }

  lemma {:induction false} NextIrrelevant(env: Env, list: seq<Pipe>, k: nat, f: Flags, h: History, fuel: nat)
    requires k < |list| && ForSyntaxOk(list) && ValidFlags(list, f)
    requires !Next(env, list, k, f, h, fuel).Unfinished?
    ensures Next(env, list, k, f, h, fuel + 1) == Next(env, list, k, f, h, fuel)
    decreases fuel, list, |list| - k, 0
  {
    if !f.restore {
      BoundIrrelevant(env, list, k + 1, f, h, fuel);
    } else if f.rpipe.Some? {
      BoundIrrelevant(env, list, f.rpipe.value, f, h, fuel - 1);
    }
  }

  lemma {:induction false} ListBoundIrrelevant(env: Env, list: seq<Pipe>, h: History, fuel: nat)
    requires !RunList(env, list, h, fuel).Unfinished?
    ensures RunList(env, list, h, fuel + 1) == RunList(env, list, h, fuel)
    decreases fuel, list, |list| + 1
  {
    if ForSyntaxOk(list) {
      BoundIrrelevant(env, list, 0, INITIAL, h, fuel);
    }
  }

  ghost function Ran(env: Env, prog: Prog, h: History, fuel: nat): Outcome {
    match prog
    case NoProg => Finished(h, 0)
    case Words(argv) => RunWords(env, argv, h)
    case Group(list) => RunList(env, list, h, fuel)
  }

  /** What a round makes of its action: stop, pass the pipe, or run it and record its code. */
  ghost function Round(env: Env, list: seq<Pipe>, k: nat, a: Action, rcode: int, h: History, fuel: nat): Outcome
    requires k < |list| && ForSyntaxOk(list)
    requires !a.Stop? ==> ValidFlags(list, a.f)
  {
    if a.Stop? then Finished(h, rcode)
    else if a.Pass? then Next(env, list, k, a.f, h, fuel)
    else
      var r := Ran(env, a.prog, h, fuel);
      if r.Unfinished? then r
      else if r.Exited? then Exited(r.hist, 0)
      else if r.code < -1 then Exited(r.hist, -r.code - 2)
      else Next(env, list, k, Record(list[k], a.f, r.code), r.hist, fuel)
  }

  lemma OneRound(env: Env, list: seq<Pipe>, k: nat, f: Flags, h: History, fuel: nat)
    requires k < |list| && ForSyntaxOk(list) && ValidFlags(list, f)
    ensures ForPipeOk(list, k)
    ensures var a := Decide(env, list, k, AtHead(list[k].mode, k, f), h);
      && (!a.Stop? ==> ValidFlags(list, a.f))
      && RunFrom(env, list, k, f, h, fuel) == Round(env, list, k, a, f.rcode, h, fuel)
  {
    hide Next, Decide;
    assert ForPipeOk(list, k);
  }

  lemma AtEnd(env: Env, list: seq<Pipe>, f: Flags, h: History, fuel: nat)
    requires ForSyntaxOk(list) && ValidFlags(list, f)
    ensures RunFrom(env, list, |list|, f, h, fuel) == Finished(h, f.rcode)
  {
  }

  lemma Advance(env: Env, list: seq<Pipe>, k: nat, f: Flags, h: History, fuel: nat)
    requires k < |list| && ForSyntaxOk(list) && ValidFlags(list, f)
    requires !Next(env, list, k, f, h, fuel).Unfinished?
    ensures Next(env, list, k, f, h, fuel)
            == if !f.restore then RunFrom(env, list, k + 1, f, h, fuel)
               else if f.rpipe.None? then Finished(h, f.rcode)
               else RunFrom(env, list, f.rpipe.value, f, h, fuel - 1)
    ensures f.restore && f.rpipe.Some? ==> fuel > 0
  {
  }

  /** The local variables of one activation of run_list_real. */
  class Frame {
    var rcode: int
    var flagRep: bool
    var flagRestore: bool
    var flagSkip: bool
    var skipMore: ReservedStyle
    var ifCode: int
    var nextIfCode: int
    var rpipe: Option<nat>
    var values: Option<seq<string>>

    ghost function Now(): Flags
      reads this
    {
      Flags(rcode, flagRep, flagRestore, flagSkip, skipMore, ifCode, nextIfCode, rpipe, values)
    }

    constructor ()
      ensures Now() == INITIAL
    {
      rcode, flagRep, flagRestore, flagSkip, skipMore := 0, false, false, true, ResXxxx;
      ifCode, nextIfCode, rpipe, values := 0, 0, None, None;
    }

    /** Lines 1783-1797: a loop keyword remembers where the loop starts. */
    method LoopHead(rmode: ReservedStyle, pi: nat)
      modifies this
      ensures Now() == AtHead(rmode, pi, old(Now())) && rcode == old(rcode)
    {
      if IsLoopHead(rmode) {
        flagRestore := false;
        if rpipe.None? {
          flagRep, rpipe := false, Some(pi);
        }
      }
    }

    /** Lines 1798-1855: is this pipe's program to be run, and which one? */
    method Choose(env: Env, list: seq<Pipe>, pi: nat, history: History) returns (stop: bool, prog: Prog)
      requires pi < |list| && ForPipeOk(list, pi)
      modifies this
      ensures var a := Decide(env, list, pi, old(Now()), history);
        && stop == a.Stop?
        && prog == (if a.Exec? then a.prog else NoProg)
        && (!stop ==> Now() == a.f)
        && rcode == old(rcode)
    {
      stop, prog := false, NoProg;
      var pipe := list[pi];
      var rmode := pipe.mode;
      if rmode == skipMore && flagSkip {
        if pipe.followup.PipeSeq? {
          flagSkip := false;
        }
        return;
      }
      flagSkip, skipMore := true, ResXxxx;
      if rmode.ResThen? || rmode.ResElse? {
        ifCode := nextIfCode;
      }
      if rmode.ResThen? && ifCode != 0 { return; }
      if rmode.ResElse? && ifCode == 0 { return; }
      if rmode.ResElif? && ifCode == 0 {
        stop := true;
        return;
      }
      if rmode.ResFor? && pipe.prog.Words? && pipe.prog.argv != [] {
        if values.None? {
          if !list[pi + 1].prog.Words? { return; }
          values := Some(Assignments(pipe.prog.argv[0], env.fields(history, list[pi + 1].prog.argv)));
          flagRep := true;
        }
        if values.value == [] {
          values, flagRep := None, false;
        } else {
          prog, values := Words([values.value[0]]), Some(values.value[1..]);
        }
        return;
      }
      if rmode.ResIn? { return; }
      if rmode.ResDo? && !flagRep { return; }
      if rmode.ResDone? {
        if flagRep {
          flagRestore := true;
        } else {
          rpipe := None;
        }
      }
      prog := pipe.prog;
    }

    /** Lines 1897-1905: what the exit code of the pipe changes. */
    method Note(pipe: Pipe, code: int)
      modifies this
      ensures Now() == Record(pipe, old(Now()), code) && rcode == code && rpipe == old(rpipe)
    {
      rcode := code;
      if pipe.mode.ResIf? || pipe.mode.ResElif? {
        nextIfCode := rcode;
      }
      if pipe.mode.ResWhile? {
        flagRep := rcode == 0;
      }
      if pipe.mode.ResUntil? {
        flagRep := rcode != 0;
      }
      if (rcode == 0 && pipe.followup.PipeOr?) || (rcode != 0 && pipe.followup.PipeAnd?) {
        skipMore := pipe.mode;
      }
    }
  }

  class Shell {
    const env: Env
    var history: History
    var lastReturnCode: int

    constructor (env: Env)
      ensures this.env == env && history == [] && lastReturnCode == 0
    {
      this.env := env;
      history, lastReturnCode := [], 0;
    }

    /** run_pipe_real: a simple command, or the group of pipe pi. */
    method RunPipeReal(list: seq<Pipe>, pi: nat, prog: Prog, ghost fuel: nat) returns (rcode: int)
      requires pi < |list| && !prog.NoProg? && (prog.Group? ==> prog == list[pi].prog)
      requires !Ran(env, prog, history, fuel).Unfinished?
      modifies this
      ensures Reports(Ran(env, prog, old(history), fuel), rcode)
      decreases fuel, list, 0
    {
      if prog.Words? {
        rcode := env.status(history, prog.argv);
        history := history + [Event(prog.argv, rcode)];
      } else {
        assert list decreases to list[pi];
        assert list[pi] decreases to list[pi].prog;
        rcode := RunListReal(list[pi].prog.list, fuel);
      }
    }

    /** The shell's state and the returned code are what outcome r says. */
    ghost predicate Reports(r: Outcome, rcode: int)
      reads this
    {
      && history == r.hist
      && (r.Finished? ==> rcode == r.code)
      && (r.Exited? ==> rcode == -2 && lastReturnCode == r.status)
    }

    /** `$?` behind a list: 0 or 1 by the code of the last pipe that ran, or what it was if nothing did. */
    ghost predicate Noted(was: int, h: History, rcode: int)
      reads this
    {
      lastReturnCode == (if rcode == 0 then 0 else 1) || (lastReturnCode == was && history == h)
    }

    /** The body of run_list_real's loop; done says that the whole list is over. */
    method OnePipe(list: seq<Pipe>, pi: nat, f: Frame, ghost fuel: nat, ghost was: int, ghost h: History)
        returns (done: bool, rcode: int)
      requires pi < |list| && ForSyntaxOk(list) && ValidFlags(list, f.Now())
      requires !RunFrom(env, list, pi, f.Now(), history, fuel).Unfinished? && Noted(was, h, f.rcode)
      modifies this, f
      ensures var r := RunFrom(env, list, pi, old(f.Now()), old(history), fuel);
        if done then Reports(r, rcode)
        else ValidFlags(list, f.Now()) && r == Next(env, list, pi, f.Now(), history, fuel)
      ensures !done ==> Noted(was, h, f.rcode)
      ensures done && rcode >= -1 ==> Noted(was, h, rcode)
      decreases fuel, list, 1
    {
      hide RunFrom, RunList, Next, Decide, AtHead, Record, Ran;
      OneRound(env, list, pi, f.Now(), history, fuel);
      f.LoopHead(list[pi].mode, pi);
      var stop, prog := f.Choose(env, list, pi, history);
      if stop {
        return true, f.rcode;
      }
      if !prog.NoProg? {
        rcode := RunPipeReal(list, pi, prog, fuel);
        if rcode < -1 {
          lastReturnCode := -rcode - 2;
          return true, -2;
        }
        lastReturnCode := if rcode == 0 then 0 else 1;
        f.Note(list[pi], rcode);
      }
      return false, f.rcode;
    }

    /**
      run_list_real.  The bound only says that the run ends (the loop below
      does not look at it); what the run does is what the flag machine does.
     */
    method RunListReal(list: seq<Pipe>, ghost fuel: nat) returns (rcode: int)
      requires !RunList(env, list, history, fuel).Unfinished?
      modifies this
      ensures Reports(RunList(env, list, old(history), fuel), rcode)
      ensures rcode >= -1 ==> Noted(old(lastReturnCode), old(history), rcode)
      decreases fuel, list, 2
    {
      assert forall rcode :: Noted(lastReturnCode, history, rcode);
      if !ForSyntaxOk(list) {
        return 1;
      }
      ghost var goal := RunList(env, list, history, fuel);
      assert goal == RunFrom(env, list, 0, INITIAL, history, fuel);
      hide RunFrom, RunList, Next, Noted;
      var f := new Frame();
      var pi: nat := 0;
      ghost var n: nat := fuel;
      while pi < |list|
        invariant pi <= |list| && n <= fuel && fresh(f)
        invariant ValidFlags(list, f.Now())
        invariant RunFrom(env, list, pi, f.Now(), history, n) == goal
        invariant Noted(old(lastReturnCode), old(history), f.rcode)
        decreases n, |list| - pi
      {
        var done, code := OnePipe(list, pi, f, n, old(lastReturnCode), old(history));
        if done {
          return code;
        }
        Advance(env, list, pi, f.Now(), history, n);
        if !f.flagRestore {
          pi := pi + 1;
        } else if f.rpipe.None? {
          return f.rcode;
        } else {
          pi, n := f.rpipe.value, n - 1;
        }
      }
      AtEnd(env, list, f.Now(), history, n);
      rcode := f.rcode;
    }

    /**
      A whole command line behaves as the structured meaning of its script, which
      is that of POSIX where no differing status is read.
     */
    method RunLine(s: Script, ghost fuel: nat) returns (rcode: int)
      requires WfScript(s) && PureScript(s)
      requires !EvalScript(env, LastRun, s, history, 0, fuel).Unfinished?
      modifies this
      ensures Reports(EvalScript(env, LastRun, s, old(history), 0, fuel), rcode)
      ensures SafeScript(s, false) ==> history == EvalScript(env, Posix, s, old(history), 0, fuel).hist
      ensures var r := EvalScript(env, Posix, s, old(history), 0, fuel);
        SafeScript(s, true) && r.Finished? ==> rcode == r.code
      ensures rcode >= -1 ==> Noted(old(lastReturnCode), old(history), rcode)
    {
      PureChainsFollowed(env, s, history, fuel);
      if SafeScript(s, false) {
        ScriptAlike(env, s, false, history, 0, 0, fuel);
      }
      if SafeScript(s, true) {
        ScriptAlike(env, s, true, history, 0, 0, fuel);
      }
      rcode := RunListReal(FlattenLine(s), fuel);
    }
  }
}
