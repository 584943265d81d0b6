/**
  run_list_real of cli_hush.c: a loop over a flat pipe list, steered by flags.

  The outside world (command execution, variable expansion) is an Env: any
  function of the commands run so far.  Dafny functions terminate, so a run
  carries a bound on the number of jumps back to a loop head; a run that meets
  the bound is Unfinished and still reports what it has executed.
 */
module HushMachine {
  import opened Options
  import opened HushSyntax

  /** One executed command and its exit code. */
  datatype Event = Event(argv: seq<string>, code: int)

  type History = seq<Event>

  /** status: exit code of a command; fields: the values a `for` list expands to. */
  datatype Env = Env(status: (History, seq<string>) -> int, fields: (History, seq<string>) -> seq<string>)

  /**
    Finished: run_list_real returned code.  Exited: it returned -2, with
    last_return_code set to status.  Unfinished: the bound was met.
   */
  datatype Outcome =
    | Finished(hist: History, code: int)
    | Exited(hist: History, status: int)
    | Unfinished(hist: History)

  /** The local variables of run_list_real; values is the rest of `list`. */
  datatype Flags = Flags(
    rcode: int, rep: bool, restore: bool, skip: bool, skipMore: ReservedStyle,
    ifCode: int, nextIfCode: int, rpipe: Option<nat>, values: Option<seq<string>>)

  const INITIAL := Flags(0, false, false, true, ResXxxx, 0, 0, None, None)

  predicate IsLoopHead(m: ReservedStyle) {
    m.ResWhile? || m.ResUntil? || m.ResFor?
  }

  /** The syntax check for `for` that precedes the loop. */
  predicate ForSyntaxOk(list: seq<Pipe>) {
    forall i :: 0 <= i < |list| ==> ForPipeOk(list, i)
  }

  predicate ForPipeOk(list: seq<Pipe>, i: nat)
    requires i < |list|
  {
    && ((list[i].mode.ResIn? || list[i].mode.ResFor?) ==> i + 1 < |list|)
    && (list[i].mode.ResIn? && list[i + 1].mode.ResIn? ==> !list[i + 1].prog.Words?)
    && (list[i].mode.ResFor? ==> list[i + 1].mode.ResIn?)
  }

  /** make_list_in: one NAME=VALUE word per field. */
  function Assignments(name: string, fields: seq<string>): (r: seq<string>)
    ensures |r| == |fields|
  {
    seq(|fields|, i requires 0 <= i < |fields| => name + "=" + fields[i])
  }

  /** Reaching a loop head: remember it, unless one is remembered already. */
  function AtHead(m: ReservedStyle, k: nat, f: Flags): Flags {
    if !IsLoopHead(m) then f
    else if f.rpipe.None? then f.(restore := false, rep := false, rpipe := Some(k))
    else f.(restore := false)
  }

  /** Leaving && / || skipping, and publishing the condition's status. */
  function Unskip(m: ReservedStyle, f: Flags): Flags {
    var f := f.(skip := true, skipMore := ResXxxx);
    if m.ResThen? || m.ResElse? then f.(ifCode := f.nextIfCode) else f
  }

  /** What one round of the loop does with its pipe, short of running it. */
  datatype Action = Pass(f: Flags) | Stop | Exec(prog: Prog, f: Flags)

  function Decide(env: Env, list: seq<Pipe>, k: nat, f: Flags, h: History): (a: Action)
    requires k < |list|
    requires list[k].mode.ResFor? ==> ForPipeOk(list, k)
    ensures a.Exec? ==> !a.prog.NoProg? && (a.prog.Group? ==> a.prog == list[k].prog)
    ensures !a.Stop? && a.f.rpipe.Some? ==> a.f.rpipe == f.rpipe
    ensures !a.Stop? ==> a.f.rcode == f.rcode
  {
    var pi := list[k];
    var m := pi.mode;
    if m == f.skipMore && f.skip then
      Pass(if pi.followup.PipeSeq? then f.(skip := false) else f)
    else
      var f := Unskip(m, f);
      if m.ResThen? && f.ifCode != 0 then Pass(f)
      else if m.ResElse? && f.ifCode == 0 then Pass(f)
      else if m.ResElif? && f.ifCode == 0 then Stop
      else if m.ResFor? && pi.prog.Words? && pi.prog.argv != [] then DecideFor(env, list, k, f, h)
      else if m.ResIn? then Pass(f)
      else if m.ResDo? && !f.rep then Pass(f)
      else
        var f := if !m.ResDone? then f else if f.rep then f.(restore := true) else f.(rpipe := None);
        if pi.prog.NoProg? then Pass(f) else Exec(pi.prog, f)
  }

  /** The `for` head: expand the word list once, then hand out one value a round. */
  function DecideFor(env: Env, list: seq<Pipe>, k: nat, f: Flags, h: History): Action
    requires k < |list| && ForPipeOk(list, k)
    requires list[k].mode.ResFor? && list[k].prog.Words? && list[k].prog.argv != []
  {
    if f.values.None? && !list[k + 1].prog.Words? then Pass(f)
    else
      var f := if f.values.Some? then f else
        var fields := env.fields(h, list[k + 1].prog.argv);
        f.(values := Some(Assignments(list[k].prog.argv[0], fields)), rep := true);
      if f.values.value == [] then Pass(f.(values := None, rep := false))
      else Exec(Words([f.values.value[0]]), f.(values := Some(f.values.value[1..])))
  }

  /** What a round does with the exit code of the pipe it ran. */
  function Record(pi: Pipe, f: Flags, code: int): Flags {
    var f := f.(rcode := code);
    var f := if pi.mode.ResIf? || pi.mode.ResElif? then f.(nextIfCode := code) else f;
    var f := if pi.mode.ResWhile? then f.(rep := code == 0)
             else if pi.mode.ResUntil? then f.(rep := code != 0) else f;
    if (code == 0 && pi.followup.PipeOr?) || (code != 0 && pi.followup.PipeAnd?)
    then f.(skipMore := pi.mode) else f
  }

  ghost predicate ValidFlags(list: seq<Pipe>, f: Flags) {
    f.rpipe.Some? ==> f.rpipe.value < |list|
  }

  // ----- the interpreter as a function -----

  /** A simple command of run_pipe_real: its exit code is the world's answer. */
  function RunWords(env: Env, argv: seq<string>, h: History): Outcome {
    var code := env.status(h, argv);
    Finished(h + [Event(argv, code)], code)
  }

  function RunList(env: Env, list: seq<Pipe>, h: History, fuel: nat): (r: Outcome)
    ensures r.Finished? ==> r.code >= -1
    decreases fuel, list, |list| + 1
  {
    if !ForSyntaxOk(list) then Finished(h, 1)
    else RunFrom(env, list, 0, INITIAL, h, fuel)
  }

  /** The main loop, entered at pipe k with the given flags. */
  function RunFrom(env: Env, list: seq<Pipe>, k: nat, f: Flags, h: History, fuel: nat): (r: Outcome)
    requires k <= |list| && ForSyntaxOk(list) && ValidFlags(list, f)
    ensures f.rcode >= -1 && r.Finished? ==> r.code >= -1
    decreases fuel, list, |list| - k, 1
  {
    if k == |list| then Finished(h, f.rcode)
    else
      var f := AtHead(list[k].mode, k, f);
      assert ForPipeOk(list, k);
      match Decide(env, list, k, f, h)
      case Stop => Finished(h, f.rcode)
      case Pass(f) => Next(env, list, k, f, h, fuel)
      case Exec(prog, f) =>
        assert list decreases to list[k];
        assert list[k] decreases to list[k].prog;
        match if prog.Words? then RunWords(env, prog.argv, h) else RunList(env, list[k].prog.list, h, fuel)
        case Unfinished(h) => Unfinished(h)
        case Exited(h, _) => Exited(h, 0)
        case Finished(h, code) =>
          if code < -1 then Exited(h, -code - 2)
          else Next(env, list, k, Record(list[k], f, code), h, fuel)
  }

  /** The end of a round: on to the next pipe, or back to the loop head. */
  function Next(env: Env, list: seq<Pipe>, k: nat, f: Flags, h: History, fuel: nat): (r: Outcome)
    requires k < |list| && ForSyntaxOk(list) && ValidFlags(list, f)
    ensures f.rcode >= -1 && r.Finished? ==> r.code >= -1
    decreases fuel, list, |list| - k, 0
  {
    if !f.restore then RunFrom(env, list, k + 1, f, h, fuel)
    else if f.rpipe.None? then Finished(h, f.rcode)
    else if fuel == 0 then Unfinished(h)
    else RunFrom(env, list, f.rpipe.value, f, h, fuel - 1)
  }
}
