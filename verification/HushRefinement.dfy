/**
  The flag machine runs the structured program: for every well-formed script,
  every world and every bound on loop jumps, the run of the flattened pipe list
  equals the structured evaluation, outcome and history alike.
 */
module HushRefinement {
  import opened Options
  import opened HushSyntax
  import opened HushMachine
  import opened HushSemantics

  // ----- vocabulary of the proof -----

  /** The sublist p stands at position k of the list. */
  ghost predicate At(list: seq<Pipe>, k: nat, p: seq<Pipe>) {
    k + |p| <= |list| && list[k..k + |p|] == p
  }

  lemma AtSplit(list: seq<Pipe>, k: nat, p: seq<Pipe>, q: seq<Pipe>)
    requires At(list, k, p + q)
    ensures At(list, k, p) && At(list, k + |p|, q)
  {
    assert list[k..k + |p|] == (p + q)[..|p|];
    assert list[k + |p|..k + |p| + |q|] == (p + q)[|p|..];
  }

  lemma AtHeadOf(list: seq<Pipe>, k: nat, p: Pipe, q: seq<Pipe>)
    requires At(list, k, [p] + q)
    ensures k < |list| && list[k] == p && At(list, k + 1, q)
  {
    AtSplit(list, k, [p], q);
    assert list[k] == list[k..k + 1][0];
  }

  /** The modes in which a section of commands is tagged. */
  predicate IsSection(m: ReservedStyle) {
    m.ResNone? || m.ResIf? || m.ResThen? || m.ResElif? || m.ResElse? || m.ResWhile? || m.ResUntil? || m.ResDo?
  }

  /** No && / || skipping is in force. */
  predicate Clean(f: Flags) {
    f.skipMore.ResXxxx? || !f.skip
  }

  function Norm(f: Flags): Flags {
    f.(skip := true, skipMore := ResXxxx)
  }

  /** The flags after entering a section at pipe k. */
  function Open(m: ReservedStyle, k: nat, f: Flags): Flags {
    Unskip(m, AtHead(m, k, f))
  }

  /** The section's commands are wanted. */
  predicate Active(m: ReservedStyle, g: Flags) {
    match m
    case ResThen => g.ifCode == 0
    case ResElse => g.ifCode != 0
    case ResElif => g.ifCode != 0
    case ResDo => g.rep
    case _ => true
  }

  function Mark(m: ReservedStyle, g: Flags, code: int): Flags {
    Record(Pipe(m, PipeSeq, NoProg), g, code)
  }

  /** The flags after a section whose script is s, entered at k with flags f, ended with status st. */
  function Leave(m: ReservedStyle, k: nat, f: Flags, s: Script, st: int): Flags {
    if s.Done? then f
    else if HasCommand(s) then Mark(m, Open(m, k, f), st)
    else Open(m, k, f)
  }

  /** Every pipe carries a mode that && / || skipping can name. */
  ghost predicate Tagged(list: seq<Pipe>) {
    forall i :: 0 <= i < |list| ==> !list[i].mode.ResXxxx?
  }

  /** A list and flags that a section with mode m can be entered with at pipe k. */
  ghost predicate Ready(list: seq<Pipe>, k: nat, m: ReservedStyle, f: Flags) {
    && ForSyntaxOk(list) && Tagged(list) && ValidFlags(list, f)
    && IsSection(m) && Clean(f) && !Open(m, k, f).restore
    && (k < |list| ==> Active(m, Open(m, k, f)))
  }

  /** Flags inside a section: entering it once more changes nothing. */
  ghost predicate Settled(list: seq<Pipe>, m: ReservedStyle, g: Flags) {
    && ForSyntaxOk(list) && Tagged(list) && ValidFlags(list, g)
    && IsSection(m) && Active(m, g) && Norm(g) == g && !g.restore
    && (IsLoopHead(m) ==> g.rpipe.Some?)
    && (m.ResThen? || m.ResElse? ==> g.ifCode == g.nextIfCode)
  }

  lemma SettledOpen(list: seq<Pipe>, k: nat, m: ReservedStyle, f: Flags)
    requires Ready(list, k, m, f) && k < |list|
    ensures Settled(list, m, Open(m, k, f)) && Open(m, k, f).rcode == f.rcode
  {
  }

  lemma SettledStays(list: seq<Pipe>, k: nat, m: ReservedStyle, g: Flags, code: int, code': int)
    requires Settled(list, m, g)
    ensures Ready(list, k, m, g) && Open(m, k, g) == g
    ensures Settled(list, m, Mark(m, g, code))
    ensures Mark(m, g, code).rcode == code && Mark(m, Mark(m, g, code), code') == Mark(m, g, code')
  {
  }

  /** Recording a code: skipping starts exactly when the next operator does not want its command. */
  lemma RecordIs(m: ReservedStyle, t: Tail, prog: Prog, g: Flags, st: int)
    ensures Record(Pipe(m, Follow(t), prog), g, st)
            == if t.End? || Wants(t.op, st) then Mark(m, g, st) else Mark(m, g, st).(skipMore := m)
  {
  }

  /** Basic facts that make a section enterable. */
  ghost predicate Calm(list: seq<Pipe>, f: Flags) {
    ForSyntaxOk(list) && Tagged(list) && ValidFlags(list, f) && Clean(f) && !f.restore
  }

  lemma ReadyIfCalm(list: seq<Pipe>, k: nat, m: ReservedStyle, f: Flags)
    requires Calm(list, f)
    requires (m.ResDo? && f.rep) || (m.ResElse? && f.nextIfCode != 0) || (m.ResElif? && f.ifCode != 0) ||
        (m.ResThen? && f.nextIfCode == 0)
    ensures Ready(list, k, m, f)
  {
  }

  /** A run that went through a part of the list: it goes on behind it, or stopped inside it. */
  ghost predicate Through(env: Env, list: seq<Pipe>, run: Outcome, r: Outcome, k: nat, f: Flags, fuel: nat)
  {
    if !r.Finished? then run == r
    else
      && ForSyntaxOk(list) && ValidFlags(list, f) && k <= |list|
      && run == RunFrom(env, list, k, f, r.hist, fuel)
  }

  // ----- single pipes -----

  lemma CleanEq(env: Env, list: seq<Pipe>, k: nat, f: Flags, h: History, fuel: nat)
    requires k <= |list| && ForSyntaxOk(list) && Tagged(list) && ValidFlags(list, f) && Clean(f)
    ensures RunFrom(env, list, k, f, h, fuel) == RunFrom(env, list, k, Norm(f), h, fuel)
  {
    if k < |list| {
      var m := list[k].mode;
      assert ForPipeOk(list, k);
      assert Decide(env, list, k, AtHead(m, k, f), h) == Decide(env, list, k, AtHead(m, k, Norm(f)), h);
    }
  }

  lemma BlankPipe(env: Env, list: seq<Pipe>, k: nat, m: ReservedStyle, f: Flags, h: History, fuel: nat)
    requires k < |list| && list[k] == Pipe(m, PipeSeq, NoProg) && Ready(list, k, m, f)
    ensures RunFrom(env, list, k, f, h, fuel) == RunFrom(env, list, k + 1, Open(m, k, f), h, fuel)
  {
    assert ForPipeOk(list, k);
  }

  /** What run_list_real makes of one program. */
  ghost function ProgOutcome(env: Env, prog: Prog, h: History, fuel: nat): Outcome
    requires !prog.NoProg?
  {
    match if prog.Words? then RunWords(env, prog.argv, h) else RunList(env, prog.list, h, fuel)
    case Finished(h, code) => if code < -1 then Exited(h, -code - 2) else Finished(h, code)
    case Exited(h, _) => Exited(h, 0)
    case Unfinished(h) => Unfinished(h)
  }

  lemma CommandPipe(env: Env, list: seq<Pipe>, k: nat, m: ReservedStyle, f: Flags, h: History, fuel: nat)
    requires k < |list| && list[k].mode == m && !list[k].prog.NoProg? && Ready(list, k, m, f)
    ensures var r := ProgOutcome(env, list[k].prog, h, fuel);
      RunFrom(env, list, k, f, h, fuel)
      == if r.Finished? then RunFrom(env, list, k + 1, Record(list[k], Open(m, k, f), r.code), r.hist, fuel) else r
  {
    assert ForPipeOk(list, k);
  }

  lemma SkippedPipe(env: Env, list: seq<Pipe>, k: nat, m: ReservedStyle, f: Flags, h: History, fuel: nat)
    requires k < |list| && list[k].mode == m && Settled(list, m, Norm(f))
    requires f.skip && f.skipMore == m
    ensures RunFrom(env, list, k, f, h, fuel)
            == RunFrom(env, list, k + 1, if list[k].followup.PipeSeq? then f.(skip := false) else f, h, fuel)
  {
    assert ForPipeOk(list, k);
  }

  /** A short-circuited chain is skipped up to and including its `;`. */
  lemma {:induction false} SkipTail(env: Env, list: seq<Pipe>, k: nat, t: Tail, m: ReservedStyle, f: Flags,
      h: History, fuel: nat)
    requires t.More? && At(list, k, FlattenTail(t, m)) && Settled(list, m, Norm(f))
    requires f.skip && f.skipMore == m
    ensures RunFrom(env, list, k, f, h, fuel) == RunFrom(env, list, k + |FlattenTail(t, m)|, Norm(f), h, fuel)
    decreases t
  {
    hide RunFrom;
    AtHeadOf(list, k, Pipe(m, Follow(t.tail), ProgOf(t.next)), FlattenTail(t.tail, m));
    SkippedPipe(env, list, k, m, f, h, fuel);
    if t.tail.More? {
      SkipTail(env, list, k + 1, t.tail, m, f, h, fuel);
    } else {
      CleanEq(env, list, k + 1, f.(skip := false), h, fuel);
    }
  }

  lemma UnwantedPipe(env: Env, list: seq<Pipe>, k: nat, m: ReservedStyle, f: Flags, h: History, fuel: nat)
    requires ForSyntaxOk(list) && ValidFlags(list, f) && Clean(f) && !f.restore
    requires k < |list| && list[k].mode == m && (m.ResThen? || m.ResElse? || m.ResDo?)
    requires !Active(m, Open(m, k, f))
    ensures RunFrom(env, list, k, f, h, fuel) == RunFrom(env, list, k + 1, Open(m, k, f), h, fuel)
  {
    assert ForPipeOk(list, k);
  }

  /** A section that is not wanted is passed over pipe by pipe. */
  lemma {:induction false} SkipSection(env: Env, list: seq<Pipe>, k: nat, n: nat, m: ReservedStyle, f: Flags,
      h: History, fuel: nat)
    requires ForSyntaxOk(list) && ValidFlags(list, f) && Clean(f) && !f.restore
    requires k + n <= |list| && forall i :: k <= i < k + n ==> list[i].mode == m
    requires m.ResThen? || m.ResElse? || m.ResDo?
    requires !Active(m, Open(m, k, f))
    ensures RunFrom(env, list, k, f, h, fuel)
            == RunFrom(env, list, k + n, if n == 0 then f else Open(m, k, f), h, fuel)
    decreases n
  {
    hide RunFrom;
    if n > 0 {
      UnwantedPipe(env, list, k, m, f, h, fuel);
      SkipSection(env, list, k + 1, n - 1, m, Open(m, k, f), h, fuel);
    }
  }

  // ----- sections -----

  lemma {:induction false} StatusKept(env: Env, s: Script, h: History, st: int, fuel: nat)
    requires !HasCommand(s)
    ensures EvalScript(env, Abandon, s, h, st, fuel) == Finished(h, st)
    decreases s
  {
    if s.Then? {
      StatusKept(env, s.rest, h, st, fuel);
    }
  }

  lemma NothingLeaves(list: seq<Pipe>, k: nat, m: ReservedStyle, f: Flags)
    requires Ready(list, k, m, f)
    ensures Leave(m, k, f, Done, f.rcode) == f && ForSyntaxOk(list) && ValidFlags(list, f)
  {
  }

  /** An empty unit opens its section and leaves the rest to the units behind it. */
  lemma BlankLeaves(list: seq<Pipe>, k: nat, k': nat, m: ReservedStyle, f: Flags, rest: Script, code: int)
    requires Ready(list, k, m, f) && k < |list|
    ensures var g := Open(m, k, f);
      Ready(list, k', m, g) && g.rcode == f.rcode &&
          Leave(m, k, f, Then(Blank, rest), code) == Leave(m, k', g, rest, code)
  {
    hide Record, AtHead, Unskip;
    SettledOpen(list, k, m, f);
    SettledStays(list, k', m, Open(m, k, f), code, 0);
  }

  /** A chain that ended with code1 does the same, its code recorded. */
  lemma UnitLeaves(list: seq<Pipe>, k: nat, k': nat, m: ReservedStyle, f: Flags, u: Unit, rest: Script,
      code1: int, code: int)
    requires Ready(list, k, m, f) && k < |list| && u.AndOr? && (!HasCommand(rest) ==> code == code1)
    ensures var g := Mark(m, Open(m, k, f), code1);
      Ready(list, k', m, g) && g.rcode == code1 && Leave(m, k, f, Then(u, rest), code) == Leave(m, k', g, rest, code)
  {
    hide Record, AtHead, Unskip;
    var g := Open(m, k, f);
    SettledOpen(list, k, m, f);
    SettledStays(list, k', m, g, code1, code);
    SettledStays(list, k', m, Mark(m, g, code1), 0, 0);
  }

  lemma {:induction false} ScriptRuns(env: Env, list: seq<Pipe>, k: nat, s: Script, m: ReservedStyle, f: Flags,
      h: History, fuel: nat)
    requires WfScript(s) && At(list, k, FlattenScript(s, m)) && Ready(list, k, m, f)
    ensures var r := EvalScript(env, Abandon, s, h, f.rcode, fuel);
      Through(env, list, RunFrom(env, list, k, f, h, fuel), r,
              k + |FlattenScript(s, m)|, Leave(m, k, f, s, if r.Finished? then r.code else 0), fuel)
      && (r.Finished? ==> Leave(m, k, f, s, r.code).rcode == r.code)
    decreases fuel, s, 0
  {
    hide RunFrom, Open, Mark, Leave, Ready;
    if s.Done? {
      NothingLeaves(list, k, m, f);
    } else {
      var u, rest := s.unit, s.rest;
      AtSplit(list, k, FlattenUnit(u, m), FlattenScript(rest, m));
      var k' := k + |FlattenUnit(u, m)|;
      if u.Blank? {
        assert list[k] == list[k..k + 1][0];
        BlankPipe(env, list, k, m, f, h, fuel);
        var r := EvalScript(env, Abandon, rest, h, f.rcode, fuel);
        BlankLeaves(list, k, k', m, f, rest, if r.Finished? then r.code else 0);
        ScriptRuns(env, list, k', rest, m, Open(m, k, f), h, fuel);
      } else {
        assert s decreases to u;
        ChainRuns(env, list, k, u, m, f, h, fuel);
        var r := EvalChain(env, Abandon, u, h, fuel);
        if r.Finished? {
          var r' := EvalScript(env, Abandon, rest, r.hist, r.code, fuel);
          if !HasCommand(rest) {
            StatusKept(env, rest, r.hist, r.code, fuel);
          }
          UnitLeaves(list, k, k', m, f, u, rest, r.code, if r'.Finished? then r'.code else 0);
          ScriptRuns(env, list, k', rest, m, Mark(m, Open(m, k, f), r.code), r.hist, fuel);
        }
      }
    }
  }

  lemma {:induction false} ChainRuns(env: Env, list: seq<Pipe>, k: nat, u: Unit, m: ReservedStyle, f: Flags,
      h: History, fuel: nat)
    requires u.AndOr? && WfCommand(u.first) && WfTail(u.tail)
    requires At(list, k, FlattenUnit(u, m)) && Ready(list, k, m, f)
    ensures var r := EvalChain(env, Abandon, u, h, fuel);
      Through(env, list, RunFrom(env, list, k, f, h, fuel), r,
              k + |FlattenUnit(u, m)|, Mark(m, Open(m, k, f), if r.Finished? then r.code else 0), fuel)
    decreases fuel, u, 0
  {
    hide RunFrom, AtHead, Unskip, Decide, Record;
    var AndOr(c, t) := u;
    SettledOpen(list, k, m, f);
    AtHeadOf(list, k, Pipe(m, Follow(t), ProgOf(c)), FlattenTail(t, m));
    CommandPipe(env, list, k, m, f, h, fuel);
    CommandRuns(env, c, h, fuel);
    var r := EvalCommand(env, Abandon, c, h, fuel);
    if r.Finished? {
      RecordIs(m, t, ProgOf(c), Open(m, k, f), r.code);
      RecordIs(m, t, NoProg, Open(m, k, f), r.code);
      TailRuns(env, list, k + 1, t, m, Open(m, k, f), r.hist, r.code, fuel);
    }
  }

  /** The rest of a chain, after a command with flags g settled and status st. */
  lemma {:induction false} TailRuns(env: Env, list: seq<Pipe>, k: nat, t: Tail, m: ReservedStyle, g: Flags,
      h: History, st: int, fuel: nat)
    requires WfTail(t) && At(list, k, FlattenTail(t, m)) && Settled(list, m, g)
    ensures var r := EvalTail(env, Abandon, t, h, st, fuel);
      Through(env, list, RunFrom(env, list, k, Record(Pipe(m, Follow(t), NoProg), g, st), h, fuel), r,
              k + |FlattenTail(t, m)|, Mark(m, g, if r.Finished? then r.code else 0), fuel)
    decreases fuel, t, 0
  {
    hide RunFrom, AtHead, Unskip, Decide, Record;
    RecordIs(m, t, NoProg, g, st);
    SettledStays(list, k, m, g, st, 0);
    match t
    case End =>
    case More(op, c, t') =>
      var g' := Mark(m, g, st);
      SettledStays(list, k, m, g', 0, 0);
      if Wants(op, st) {
        AtHeadOf(list, k, Pipe(m, Follow(t'), ProgOf(c)), FlattenTail(t', m));
        CommandPipe(env, list, k, m, g', h, fuel);
        CommandRuns(env, c, h, fuel);
        var r := EvalCommand(env, Abandon, c, h, fuel);
        if r.Finished? {
          RecordIs(m, t', ProgOf(c), g', r.code);
          RecordIs(m, t', NoProg, g', r.code);
          TailRuns(env, list, k + 1, t', m, g', r.hist, r.code, fuel);
          var r' := EvalTail(env, Abandon, t', r.hist, r.code, fuel);
          SettledStays(list, k, m, g, st, if r'.Finished? then r'.code else 0);
        }
      } else {
        SkipTail(env, list, k, t, m, g'.(skipMore := m), h, fuel);
      }
  }

  lemma {:induction false} CommandRuns(env: Env, c: Command, h: History, fuel: nat)
    requires WfCommand(c)
    ensures ProgOutcome(env, ProgOf(c), h, fuel) == EvalCommand(env, Abandon, c, h, fuel)
    decreases fuel, c, 2
  {
    if !c.Simple? {
      CompoundRuns(env, c, h, fuel);
    }
  }

  lemma {:induction false} CompoundRuns(env: Env, c: Command, h: History, fuel: nat)
    requires WfCommand(c) && !c.Simple?
    ensures RunList(env, FlattenCompound(c), h, fuel) == EvalCompound(env, Abandon, c, h, fuel)
    decreases fuel, c, 1, 1
  {
    var list := FlattenCompound(c);
    match c
    case If(arms) =>
      ArmsModes(arms, ResIf);
      assert At(list, 0, FlattenArms(arms, ResIf) + [FI_PIPE, TRAILER]);
      ArmsRun(env, list, 0, arms, ResIf, INITIAL, h, fuel);
    case Loop(_, _, _) =>
      LoopRuns(env, c, INITIAL, h, fuel);
    case For(_, _, _, _) =>
      ForRuns(env, c, h, fuel);
  }

  // ----- the lists of compound commands -----

  ghost predicate AllMode(p: seq<Pipe>, m: ReservedStyle) {
    forall i :: 0 <= i < |p| ==> p[i].mode == m
  }

  lemma {:induction false} ScriptModes(s: Script, m: ReservedStyle)
    ensures AllMode(FlattenScript(s, m), m)
    ensures s.Then? ==> FlattenScript(s, m) != []
    decreases s
  {
    if s.Then? {
      ScriptModes(s.rest, m);
      if s.unit.AndOr? {
        TailModes(s.unit.tail, m);
      }
    }
  }

  lemma {:induction false} TailModes(t: Tail, m: ReservedStyle)
    ensures AllMode(FlattenTail(t, m), m)
    decreases t
  {
    if t.More? {
      TailModes(t.tail, m);
    }
  }

  ghost predicate IfMode(m: ReservedStyle) {
    m.ResIf? || m.ResThen? || m.ResElif? || m.ResElse?
  }

  lemma {:induction false} ArmsModes(a: Arms, m: ReservedStyle)
    requires IfMode(m)
    ensures forall i :: 0 <= i < |FlattenArms(a, m)| ==> IfMode(FlattenArms(a, m)[i].mode)
    decreases a
  {
    match a
    case Fi =>
    case Else(body) => ScriptModes(body, ResElse);
    case Arm(cond, body, rest) =>
      ScriptModes(cond, m);
      ScriptModes(body, ResThen);
      ArmsModes(rest, ResElif);
  }

  /** A list made of a head, a body and the pipes that close it. */
  ghost predicate Laid(list: seq<Pipe>, p: seq<Pipe>, q: seq<Pipe>) {
    && At(list, 0, p) && At(list, |p|, q) && |list| == |p| + |q| + 2
    && list[|list| - 2] == DONE_PIPE && list[|list| - 1] == TRAILER
    && ForSyntaxOk(list) && Tagged(list)
  }

  lemma LoopLaid(p: seq<Pipe>, q: seq<Pipe>, m: ReservedStyle)
    requires m.ResWhile? || m.ResUntil?
    requires AllMode(p, m) && AllMode(q, ResDo)
    ensures Laid(p + q + [DONE_PIPE, TRAILER], p, q)
  {
    var list := p + q + [DONE_PIPE, TRAILER];
    forall i | 0 <= i < |list|
      ensures ForPipeOk(list, i)
    {
      assert list[i].mode in {m, ResDo, ResDone, ResNone};
    }
  }

  lemma ForLaid(c: Command, q: seq<Pipe>)
    requires c.For? && AllMode(q, ResDo)
    ensures Laid(ForHead(c) + q + [DONE_PIPE, TRAILER], ForHead(c), q)
  {
    var list := ForHead(c) + q + [DONE_PIPE, TRAILER];
    assert list[0].mode == ResFor && list[1].mode == ResIn;
    forall i | 0 <= i < |list|
      ensures ForPipeOk(list, i)
    {
      assert 2 <= i < c.blanks + 2 ==> list[i] == Pipe(ResIn, PipeSeq, NoProg);
      assert i + 1 < c.blanks + 2 && 1 <= i ==> list[i + 1] == Pipe(ResIn, PipeSeq, NoProg);
      assert c.blanks + 2 <= i ==> list[i].mode in {ResDo, ResDone, ResNone};
      assert i == c.blanks + 1 ==> list[i + 1].mode in {ResDo, ResDone, ResNone};
    }
  }

  // ----- ends of compound lists -----

  lemma LastTrailer(env: Env, list: seq<Pipe>, f: Flags, h: History, fuel: nat)
    requires ForSyntaxOk(list) && ValidFlags(list, f) && Clean(f) && !f.restore
    requires list != [] && list[|list| - 1] == TRAILER
    ensures RunFrom(env, list, |list| - 1, f, h, fuel) == Finished(h, f.rcode)
  {
    assert ForPipeOk(list, |list| - 1);
    assert RunFrom(env, list, |list| - 1, f, h, fuel) == RunFrom(env, list, |list|, Norm(f), h, fuel);
  }

  lemma ClosingPipe(env: Env, list: seq<Pipe>, k: nat, f: Flags, h: History, fuel: nat)
    requires ForSyntaxOk(list) && ValidFlags(list, f) && Clean(f) && !f.restore && k < |list|
    requires list[k] == FI_PIPE || (list[k] == DONE_PIPE && !f.rep)
    ensures RunFrom(env, list, k, f, h, fuel)
            == RunFrom(env, list, k + 1, if list[k] == FI_PIPE then Norm(f) else Norm(f).(rpipe := None), h, fuel)
  {
    assert ForPipeOk(list, k);
  }

  /** Behind the last section only the closing keyword's empty pipe and the trailer remain. */
  lemma Closing(env: Env, list: seq<Pipe>, k: nat, f: Flags, h: History, fuel: nat)
    requires ForSyntaxOk(list) && ValidFlags(list, f) && Clean(f) && !f.restore
    requires k + 2 == |list| && list[k + 1] == TRAILER
    requires list[k] == FI_PIPE || (list[k] == DONE_PIPE && !f.rep)
    ensures RunFrom(env, list, k, f, h, fuel) == Finished(h, f.rcode)
  {
    hide RunFrom;
    ClosingPipe(env, list, k, f, h, fuel);
    LastTrailer(env, list, if list[k] == FI_PIPE then Norm(f) else Norm(f).(rpipe := None), h, fuel);
  }

  /** An `elif` behind a taken arm ends the list. */
  lemma ElifStops(env: Env, list: seq<Pipe>, k: nat, f: Flags, h: History, fuel: nat)
    requires k < |list| && list[k].mode.ResElif?
    requires ForSyntaxOk(list) && ValidFlags(list, f) && Clean(f) && f.ifCode == 0
    ensures RunFrom(env, list, k, f, h, fuel) == Finished(h, f.rcode)
  {
    assert ForPipeOk(list, k);
  }

  /** After an arm was taken, the rest of an `if` runs nothing. */
  lemma ArmsPassed(env: Env, list: seq<Pipe>, k: nat, a: Arms, f: Flags, h: History, fuel: nat)
    requires WfArms(a) && ForSyntaxOk(list) && Tagged(list) && ValidFlags(list, f) && Clean(f) && !f.restore
    requires f.nextIfCode == 0 && (a.Arm? ==> f.ifCode == 0)
    requires At(list, k, FlattenArms(a, ResElif) + [FI_PIPE, TRAILER])
    requires k + |FlattenArms(a, ResElif)| + 2 == |list|
    ensures RunFrom(env, list, k, f, h, fuel) == Finished(h, f.rcode)
  {
    hide RunFrom;
    IfClosed(list, k, FlattenArms(a, ResElif));
    match a
    case Fi => Closing(env, list, k, f, h, fuel);
    case Else(body) =>
      var n := |FlattenScript(body, ResElse)|;
      ScriptModes(body, ResElse);
      AtModes(list, k, FlattenScript(body, ResElse), ResElse);
      SkipSection(env, list, k, n, ResElse, f, h, fuel);
      Closing(env, list, k + n, if n == 0 then f else Open(ResElse, k, f), h, fuel);
    case Arm(cond, body, rest) =>
      var p := FlattenScript(cond, ResElif);
      ScriptModes(cond, ResElif);
      assert cond.Then? && |p| > 0;
      assert FlattenArms(a, ResElif) == p + (FlattenScript(body, ResThen) + FlattenArms(rest, ResElif));
      AtSplit(list, k, p, FlattenScript(body, ResThen) + FlattenArms(rest, ResElif));
      AtModes(list, k, p, ResElif);
      ElifStops(env, list, k, f, h, fuel);
  }

  lemma AtModes(list: seq<Pipe>, k: nat, p: seq<Pipe>, m: ReservedStyle)
    requires At(list, k, p) && AllMode(p, m)
    ensures forall i :: k <= i < k + |p| ==> list[i].mode == m
  {
    assert forall i :: k <= i < k + |p| ==> list[i] == list[k..k + |p|][i - k];
  }

  lemma IfClosed(list: seq<Pipe>, k: nat, p: seq<Pipe>)
    requires At(list, k, p + [FI_PIPE, TRAILER]) && k + |p| + 2 == |list|
    ensures At(list, k, p) && list[|list| - 2] == FI_PIPE && list[|list| - 1] == TRAILER
  {
    AtSplit(list, k, p, [FI_PIPE, TRAILER]);
    AtHeadOf(list, |list| - 2, FI_PIPE, [TRAILER]);
    AtHeadOf(list, |list| - 1, TRAILER, []);
  }

  // ----- if -----

  lemma {:induction false} ArmsRun(env: Env, list: seq<Pipe>, k: nat, a: Arms, m: ReservedStyle, f: Flags,
      h: History, fuel: nat)
    requires WfArms(a) && a.Arm? && (m.ResIf? || m.ResElif?) && Ready(list, k, m, f)
    requires At(list, k, FlattenArms(a, m) + [FI_PIPE, TRAILER])
    requires k + |FlattenArms(a, m)| + 2 == |list|
    ensures RunFrom(env, list, k, f, h, fuel) == EvalArms(env, Abandon, a, h, f.rcode, fuel)
    decreases fuel, a, 1
  {
    hide RunFrom;
    var Arm(cond, body, rest) := a;
    var p, q, z := FlattenScript(cond, m), FlattenScript(body, ResThen),
        FlattenArms(rest, ResElif) + [FI_PIPE, TRAILER];
    assert FlattenArms(a, m) + [FI_PIPE, TRAILER] == p + (q + z);
    AtSplit(list, k, p, q + z);
    AtSplit(list, k + |p|, q, z);
    ScriptRuns(env, list, k, cond, m, f, h, fuel);
    var r := EvalScript(env, Abandon, cond, h, f.rcode, fuel);
    if r.Finished? {
      var f1 := Leave(m, k, f, cond, r.code);
      ArmTaken(env, list, k + |p|, a, f1, r.hist, fuel);
    }
  }

  /**
    Without a pipe in its `then`, an `if` never gets to its `elif`: whatever the
    condition says, the list ends with it. (POSIX has no empty `then`.)
   */
  lemma EmptyThenStops(env: Env, cond: Script, rest: Arms, h: History, fuel: nat)
    requires HasCommand(cond) && WfScript(cond) && rest.Arm? && rest.cond.Then?
    ensures RunList(env, FlattenCompound(If(Arm(cond, Done, rest))), h, fuel) ==
        EvalScript(env, Abandon, cond, h, 0, fuel)
  {
    var list, p := FlattenCompound(If(Arm(cond, Done, rest))), FlattenScript(cond, ResIf);
    EmptyThenLaid(cond, rest);
    hide RunFrom, EvalScript, FlattenCompound, FlattenScript;
    ScriptRuns(env, list, 0, cond, ResIf, INITIAL, h, fuel);
    var r := EvalScript(env, Abandon, cond, h, 0, fuel);
    if r.Finished? {
      ElifStops(env, list, |p|, Leave(ResIf, 0, INITIAL, cond, r.code), r.hist, fuel);
    }
  }

  /** An `if` list can be entered, and a part of its beginning lies at its beginning. */
  lemma IfReady(a: Arms, p: seq<Pipe>, q: seq<Pipe>)
    requires a.Arm? && FlattenArms(a, ResIf) == p + q
    ensures var list := FlattenCompound(If(a));
      At(list, 0, p) && Ready(list, 0, ResIf, INITIAL) && (q != [] ==> |p| < |list| && list[|p|] == q[0])
  {
    ArmsModes(a, ResIf);
    hide FlattenArms;
    var list := FlattenCompound(If(a));
    assert list == FlattenArms(a, ResIf) + [FI_PIPE, TRAILER];
    forall i | 0 <= i < |list|
      ensures ForPipeOk(list, i)
    {
      assert IfMode(list[i].mode) || list[i] == FI_PIPE || list[i] == TRAILER;
    }
  }

  lemma EmptyThenLaid(cond: Script, rest: Arms)
    requires rest.Arm? && rest.cond.Then?
    ensures var list, p := FlattenCompound(If(Arm(cond, Done, rest))), FlattenScript(cond, ResIf);
      At(list, 0, p) && Ready(list, 0, ResIf, INITIAL) && |p| < |list| && list[|p|].mode.ResElif?
  {
    var p, q := FlattenScript(cond, ResIf), FlattenScript(rest.cond, ResElif);
    var e := FlattenArms(rest, ResElif);
    assert e == q + (FlattenScript(rest.body, ResThen) + FlattenArms(rest.rest, ResElif));
    assert FlattenArms(Arm(cond, Done, rest), ResIf) == p + e;
    ScriptModes(rest.cond, ResElif);
    hide FlattenCompound, FlattenArms, FlattenScript, Ready;
    assert e[0] == q[0];
    IfReady(Arm(cond, Done, rest), p, e);
  }

  /** Behind a condition that left its status in f: `then` part or the remaining arms. */
  lemma {:induction false} ArmTaken(env: Env, list: seq<Pipe>, k: nat, a: Arms, f: Flags, h: History, fuel: nat)
    requires WfArms(a) && a.Arm?
    requires ForSyntaxOk(list) && Tagged(list) && ValidFlags(list, f) && Clean(f) && !f.restore
    requires f.nextIfCode == f.rcode
    requires At(list, k, FlattenScript(a.body, ResThen))
    requires At(list, k + |FlattenScript(a.body, ResThen)|, FlattenArms(a.rest, ResElif) + [FI_PIPE, TRAILER])
    requires k + |FlattenScript(a.body, ResThen)| + |FlattenArms(a.rest, ResElif)| + 2 == |list|
    ensures RunFrom(env, list, k, f, h, fuel)
            == if f.rcode == 0 then EvalScript(env, Abandon, a.body, h, f.rcode, fuel)
               else EvalArms(env, Abandon, a.rest, h, f.rcode, fuel)
    decreases fuel, a, 0, 1
  {
    hide RunFrom;
    var body, rest := a.body, a.rest;
    var k' := k + |FlattenScript(body, ResThen)|;
    if f.rcode == 0 {
      ScriptRuns(env, list, k, body, ResThen, f, h, fuel);
      var r := EvalScript(env, Abandon, body, h, f.rcode, fuel);
      if r.Finished? {
        ArmsPassed(env, list, k', rest, Leave(ResThen, k, f, body, r.code), r.hist, fuel);
      }
    } else {
      ArmSkipped(env, list, k, a, f, h, fuel);
    }
  }

  lemma {:induction false} ArmSkipped(env: Env, list: seq<Pipe>, k: nat, a: Arms, f: Flags, h: History, fuel: nat)
    requires WfArms(a) && a.Arm?
    requires ForSyntaxOk(list) && Tagged(list) && ValidFlags(list, f) && Clean(f) && !f.restore
    requires f.nextIfCode == f.rcode != 0
    requires At(list, k, FlattenScript(a.body, ResThen))
    requires At(list, k + |FlattenScript(a.body, ResThen)|, FlattenArms(a.rest, ResElif) + [FI_PIPE, TRAILER])
    requires k + |FlattenScript(a.body, ResThen)| + |FlattenArms(a.rest, ResElif)| + 2 == |list|
    ensures RunFrom(env, list, k, f, h, fuel) == EvalArms(env, Abandon, a.rest, h, f.rcode, fuel)
    decreases fuel, a, 0, 0
  {
    hide RunFrom, Record, Decide, Leave;
    var n, r := |FlattenScript(a.body, ResThen)|, FlattenArms(a.rest, ResElif);
    ScriptModes(a.body, ResThen);
    AtModes(list, k, FlattenScript(a.body, ResThen), ResThen);
    SkipSection(env, list, k, n, ResThen, f, h, fuel);
    var k', f' := k + n, if n == 0 then f else Open(ResThen, k, f);
    IfClosed(list, k', r);
    assert Calm(list, f') && f'.nextIfCode == f'.rcode == f.rcode && (n > 0 ==> f'.ifCode == f.rcode);
    hide Unskip, AtHead;
    match a.rest {
      case Fi => Closing(env, list, k', f', h, fuel);
      case Else(els) =>
        ReadyIfCalm(list, k', ResElse, f');
        ScriptRuns(env, list, k', els, ResElse, f', h, fuel);
        var r := EvalScript(env, Abandon, els, h, f.rcode, fuel);
        if r.Finished? {
          ElseFlags(k', f', els, r.code);
          Closing(env, list, |list| - 2, Leave(ResElse, k', f', els, r.code), r.hist, fuel);
        }
      case Arm(_, _, _) =>
        ReadyIfCalm(list, k', ResElif, f');
        ArmsRun(env, list, k', a.rest, ResElif, f', h, fuel);
    }
  }

  lemma ElseFlags(k: nat, f: Flags, s: Script, code: int)
    requires Clean(f) && !f.restore
    ensures var g := Leave(ResElse, k, f, s, code);
      g.rpipe == f.rpipe && Clean(g) && !g.restore
  {
  }

  // ----- while, until -----

  lemma CondFlags(until: bool, f: Flags, s: Script, code: int)
    requires HasCommand(s) && (f.rpipe.None? || f.rpipe == Some(0))
    ensures var g := Leave(LoopMode(until), 0, f, s, code);
      g.rcode == code && g.rpipe == Some(0) && Clean(g) && !g.restore && (g.rep <==> ((code == 0) != until))
  {
  }

  lemma ReadyCond(list: seq<Pipe>, until: bool, f: Flags)
    requires ForSyntaxOk(list) && Tagged(list) && ValidFlags(list, f) && Clean(f)
    ensures Ready(list, 0, LoopMode(until), f)
  {
  }

  lemma DoFlags(k: nat, f: Flags, s: Script, code: int)
    requires Clean(f) && !f.restore
    ensures var g := Leave(ResDo, k, f, s, code);
      g.rpipe == f.rpipe && Clean(g) && !g.restore && g.rep == f.rep && g.values == f.values
  {
  }

  lemma {:induction false} LoopRuns(env: Env, c: Command, f: Flags, h: History, fuel: nat)
    requires c.Loop? && WfCommand(c) && Clean(f) && (f.rpipe.None? || f.rpipe == Some(0))
    ensures var list := FlattenCompound(c);
      ForSyntaxOk(list) && ValidFlags(list, f)
      && RunFrom(env, list, 0, f, h, fuel) == EvalLoop(env, Abandon, c, h, f.rcode, fuel)
    decreases fuel, c, 0
  {
    hide RunFrom, Record, Decide, FlattenScript, Unskip, Leave;
    var list, m := FlattenCompound(c), LoopMode(c.until);
    var p, q := FlattenScript(c.cond, m), FlattenScript(c.body, ResDo);
    ScriptModes(c.cond, m);
    ScriptModes(c.body, ResDo);
    LoopLaid(p, q, m);
    ReadyCond(list, c.until, f);
    ScriptRuns(env, list, 0, c.cond, m, f, h, fuel);
    var r := EvalScript(env, Abandon, c.cond, h, f.rcode, fuel);
    if r.Finished? {
      var f1 := Leave(m, 0, f, c.cond, r.code);
      CondFlags(c.until, f, c.cond, r.code);
      if f1.rep {
        ReadyIfCalm(list, |p|, ResDo, f1);
        ScriptRuns(env, list, |p|, c.body, ResDo, f1, r.hist, fuel);
        var r' := EvalScript(env, Abandon, c.body, r.hist, r.code, fuel);
        if r'.Finished? {
          var f2 := Leave(ResDo, |p|, f1, c.body, r'.code);
          DoFlags(|p|, f1, c.body, r'.code);
          JumpBack(env, list, f2, r'.hist, fuel);
          if fuel > 0 {
            LoopRuns(env, c, Norm(f2).(restore := true), r'.hist, fuel - 1);
          }
        }
      } else {
        LoopEnds(env, list, p, q, f1, r.hist, fuel);
      }
    }
  }

  /** A loop whose condition said stop runs nothing more. */
  lemma LoopEnds(env: Env, list: seq<Pipe>, p: seq<Pipe>, q: seq<Pipe>, f: Flags, h: History, fuel: nat)
    requires Laid(list, p, q) && AllMode(q, ResDo)
    requires ValidFlags(list, f) && Clean(f) && !f.restore && !f.rep
    ensures RunFrom(env, list, |p|, f, h, fuel) == Finished(h, f.rcode)
  {
    hide RunFrom;
    AtModes(list, |p|, q, ResDo);
    SkipSection(env, list, |p|, |q|, ResDo, f, h, fuel);
    Closing(env, list, |p| + |q|, if q == [] then f else Open(ResDo, |p|, f), h, fuel);
  }

  /** `done` with the repeat flag set returns to the loop head, if the bound allows. */
  lemma JumpBack(env: Env, list: seq<Pipe>, f: Flags, h: History, fuel: nat)
    requires ForSyntaxOk(list) && Clean(f) && !f.restore && f.rep
    requires |list| >= 2 && list[|list| - 2] == DONE_PIPE && f.rpipe == Some(0)
    ensures RunFrom(env, list, |list| - 2, f, h, fuel)
            == if fuel == 0 then Unfinished(h)
               else RunFrom(env, list, 0, Norm(f).(restore := true), h, fuel - 1)
  {
    assert ForPipeOk(list, |list| - 2);
  }

  // ----- for -----

  lemma InPipe(env: Env, list: seq<Pipe>, k: nat, f: Flags, h: History, fuel: nat)
    requires ForSyntaxOk(list) && ValidFlags(list, f) && Clean(f) && !f.restore
    requires k < |list| && list[k].mode.ResIn?
    ensures RunFrom(env, list, k, f, h, fuel) == RunFrom(env, list, k + 1, Norm(f), h, fuel)
  {
    assert ForPipeOk(list, k);
  }

  lemma {:induction false} PassIn(env: Env, list: seq<Pipe>, k: nat, n: nat, f: Flags, h: History, fuel: nat)
    requires ForSyntaxOk(list) && Tagged(list) && ValidFlags(list, f) && Clean(f) && !f.restore
    requires k + n <= |list| && forall i :: k <= i < k + n ==> list[i].mode.ResIn?
    ensures RunFrom(env, list, k, f, h, fuel) == RunFrom(env, list, k + n, Norm(f), h, fuel)
    decreases n
  {
    hide RunFrom;
    if n == 0 {
      CleanEq(env, list, k, f, h, fuel);
    } else {
      InPipe(env, list, k, f, h, fuel);
      PassIn(env, list, k + 1, n - 1, Norm(f), h, fuel);
    }
  }

  /** The pipes of the word list are passed over. */
  lemma WordsPassed(env: Env, c: Command, f: Flags, h: History, fuel: nat)
    requires c.For? && Clean(f) && !f.restore
    requires Laid(FlattenCompound(c), ForHead(c), FlattenScript(c.body, ResDo)) && ValidFlags(FlattenCompound(c), f)
    ensures RunFrom(env, FlattenCompound(c), 1, f, h, fuel)
            == RunFrom(env, FlattenCompound(c), c.blanks + 2, Norm(f), h, fuel)
  {
    var list := FlattenCompound(c);
    forall i | 1 <= i < c.blanks + 2
      ensures list[i].mode.ResIn?
    {
      assert list[i] == list[0..c.blanks + 2][i];
    }
    hide RunFrom;
    PassIn(env, list, 1, c.blanks + 1, f, h, fuel);
  }

  /** A `for` whose values are used up runs nothing more. */
  lemma ForEnds(env: Env, c: Command, f: Flags, h: History, fuel: nat)
    requires c.For? && Clean(f) && !f.restore && !f.rep
    requires Laid(FlattenCompound(c), ForHead(c), FlattenScript(c.body, ResDo)) && ValidFlags(FlattenCompound(c), f)
    ensures RunFrom(env, FlattenCompound(c), 1, f, h, fuel) == Finished(h, f.rcode)
  {
    hide RunFrom;
    var list, q := FlattenCompound(c), FlattenScript(c.body, ResDo);
    WordsPassed(env, c, f, h, fuel);
    ScriptModes(c.body, ResDo);
    LoopEnds(env, list, ForHead(c), q, Norm(f), h, fuel);
  }

  /** The `for` head with its values used up. */
  lemma ForPipeEmpty(env: Env, c: Command, f: Flags, h: History, fuel: nat)
    requires c.For? && Clean(f) && f.rpipe == Some(0) && f.values == Some([])
    requires Laid(FlattenCompound(c), ForHead(c), FlattenScript(c.body, ResDo))
    ensures RunFrom(env, FlattenCompound(c), 0, f, h, fuel)
            == RunFrom(env, FlattenCompound(c), 1, Norm(f).(restore := false, values := None, rep := false), h, fuel)
  {
    var list := FlattenCompound(c);
    assert list[0] == list[0..c.blanks + 2][0] == Pipe(ResFor, PipeSeq, Words([c.name]));
    assert ForPipeOk(list, 0);
  }

  /** The `for` head with a value at hand assigns it. */
  lemma ForPipe(env: Env, c: Command, vs: seq<string>, f: Flags, h: History, fuel: nat)
    requires c.For? && Clean(f) && f.rpipe == Some(0) && f.values == Some(vs) && vs != []
    requires Laid(FlattenCompound(c), ForHead(c), FlattenScript(c.body, ResDo))
    ensures var list, r := FlattenCompound(c), EvalSimple(env, [vs[0]], h);
      RunFrom(env, list, 0, f, h, fuel) ==
      if !r.Finished? then r
      else RunFrom(env, list, 1, Norm(f).(restore := false, values := Some(vs[1..]), rcode := r.code), r.hist, fuel)
  {
    var list := FlattenCompound(c);
    assert list[0] == list[0..c.blanks + 2][0] == Pipe(ResFor, PipeSeq, Words([c.name]));
    assert ForPipeOk(list, 0);
    hide FlattenCompound, ForHead, RunList;
    assert Decide(env, list, 0, AtHead(ResFor, 0, f), h)
        == Exec(Words([vs[0]]), Norm(f).(restore := false, values := Some(vs[1..])));
  }

  /** One round of a `for` per value. */
  lemma {:induction false} ForRounds(env: Env, c: Command, vs: seq<string>, f: Flags, h: History, fuel: nat)
    requires WfCommand(c) && c.For? && Clean(f) && f.rep && f.rpipe == Some(0) && f.values == Some(vs)
    requires Laid(FlattenCompound(c), ForHead(c), FlattenScript(c.body, ResDo))
    ensures RunFrom(env, FlattenCompound(c), 0, f, h, fuel) == EvalFor(env, Abandon, c, vs, h, f.rcode, fuel)
    decreases fuel, c, 0
  {
    hide RunFrom, Record, Decide, FlattenScript, FlattenCompound, Leave, Unskip;
    var list, g := FlattenCompound(c), Norm(f).(restore := false);
    if vs == [] {
      ForPipeEmpty(env, c, f, h, fuel);
      ForEnds(env, c, g.(values := None, rep := false), h, fuel);
    } else {
      ForPipe(env, c, vs, f, h, fuel);
      var r := EvalSimple(env, [vs[0]], h);
      if r.Finished? {
        var f1 := g.(values := Some(vs[1..]), rcode := r.code);
        WordsPassed(env, c, f1, r.hist, fuel);
        var k := c.blanks + 2;
        ReadyIfCalm(list, k, ResDo, f1);
        ScriptRuns(env, list, k, c.body, ResDo, f1, r.hist, fuel);
        var r' := EvalScript(env, Abandon, c.body, r.hist, r.code, fuel);
        if r'.Finished? {
          var f2 := Leave(ResDo, k, f1, c.body, r'.code);
          DoFlags(k, f1, c.body, r'.code);
          JumpBack(env, list, f2, r'.hist, fuel);
          if fuel > 0 {
            ForRounds(env, c, vs[1..], Norm(f2).(restore := true), r'.hist, fuel - 1);
          }
        }
      }
    }
  }

  /** The first visit of a `for` head expands its word list. */
  lemma ForStarts(env: Env, c: Command, h: History, fuel: nat)
    requires c.For? && Laid(FlattenCompound(c), ForHead(c), FlattenScript(c.body, ResDo))
    ensures var list := FlattenCompound(c);
      RunFrom(env, list, 0, INITIAL, h, fuel) ==
      if c.raw == [] then RunFrom(env, list, 1, INITIAL.(rpipe := Some(0)), h, fuel)
      else RunFrom(env, list, 0, INITIAL.(rpipe := Some(0), rep := true,
          values := Some(Assignments(c.name, env.fields(h, c.raw)))), h, fuel)
  {
    var list := FlattenCompound(c);
    assert list[0] == list[0..c.blanks + 2][0] == Pipe(ResFor, PipeSeq, Words([c.name]));
    assert list[1] == list[0..c.blanks + 2][1];
    assert ForPipeOk(list, 0);
  }

  lemma {:induction false} ForRuns(env: Env, c: Command, h: History, fuel: nat)
    requires WfCommand(c) && c.For?
    ensures RunList(env, FlattenCompound(c), h, fuel) == EvalCompound(env, Abandon, c, h, fuel)
    decreases fuel, c, 1, 0
  {
    hide RunFrom;
    ScriptModes(c.body, ResDo);
    ForLaid(c, FlattenScript(c.body, ResDo));
    ForStarts(env, c, h, fuel);
    if c.raw == [] {
      ForEnds(env, c, INITIAL.(rpipe := Some(0)), h, fuel);
    } else {
      var vs := Assignments(c.name, env.fields(h, c.raw));
      ForRounds(env, c, vs, INITIAL.(rpipe := Some(0), rep := true, values := Some(vs)), h, fuel);
    }
  }

  // ----- main results -----

  /**
    Running a flattened command line is evaluating the script: same commands in
    the same order, same status, same exits, and, when the bound cuts a run
    short, the same commands up to there.
   */
  lemma LineRuns(env: Env, s: Script, h: History, fuel: nat)
    requires WfScript(s)
    ensures RunList(env, FlattenLine(s), h, fuel) == EvalScript(env, Abandon, s, h, 0, fuel)
  {
    hide RunFrom;
    var list := FlattenLine(s);
    ScriptModes(s, ResNone);
    AtSplit(list, 0, FlattenScript(s, ResNone), [TRAILER]);
    assert ForSyntaxOk(list) by {
      forall i | 0 <= i < |list|
        ensures ForPipeOk(list, i)
      {
        assert list[i].mode == ResNone;
      }
    }
    ScriptRuns(env, list, 0, s, ResNone, INITIAL, h, fuel);
    var r := EvalScript(env, Abandon, s, h, 0, fuel);
    if r.Finished? {
      var f := Leave(ResNone, 0, INITIAL, s, r.code);
      assert list[|list| - 1] == TRAILER;
      LastTrailer(env, list, f, r.hist, fuel);
    }
  }
}
