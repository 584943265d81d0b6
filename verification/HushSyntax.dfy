/**
  The shell's data: structured scripts as a user writes them, and the flat,
  tagged pipe lists that the parser of cli_hush.c builds from them.
 */
module Options {
  datatype Option<+T> = None | Some(value: T)
}

/** C strings. */
module Strings {
  const NUL: char := 0 as char
  /** SPECIAL_VAR_SYMBOL stands around a variable's name, SUBSTED_VAR_SYMBOL around a value put in its place. */
  const MARKER: char := 3 as char
  const SUBSTED: char := 4 as char

  /** isalpha of the ctype table: the letters of ASCII and of Latin-1. */
  predicate IsAlpha(ch: char) {
    'a' <= ch <= 'z' || 'A' <= ch <= 'Z' || (192 <= ch as int <= 255 && ch as int != 215 && ch as int != 247)
  }

  /** Position of the first c in s, |s| if there is none (strchr). */
  function Find(s: string, c: char): (i: nat)
    ensures i <= |s| && (i < |s| ==> s[i] == c) && forall k :: 0 <= k < i ==> s[k] != c
  {
    if s == "" || s[0] == c then 0 else 1 + Find(s[1..], c)
  }

  lemma {:induction false} FindBehind(a: string, c: char, b: string)
    requires c !in a
    ensures Find(a + ([c] + b), c) == |a|
    decreases |a|
  {
    if a != "" {
      assert (a + ([c] + b))[1..] == a[1..] + ([c] + b);
      FindBehind(a[1..], c, b);
    }
  }

  lemma FindNone(a: string, c: char)
    requires c !in a
    ensures Find(a, c) == |a|
  {
  }

  /** The C string that memory m starts with. */
  function CString(m: string): string {
    m[..Find(m, NUL)]
  }
}

module HushSyntax {

  // ----- what the parser builds (struct pipe, struct child_prog) -----

  /** reserved_style: the keyword section a pipe was parsed in. */
  datatype ReservedStyle =
    | ResNone | ResIf | ResThen | ResElif | ResElse | ResFi
    | ResFor | ResWhile | ResUntil | ResDo | ResDone | ResXxxx | ResIn | ResSntx

  /** pipe_style: how a pipe is joined to the next; PipeInvalid is the 0 of a fresh pipe. */
  datatype PipeStyle = PipeInvalid | PipeSeq | PipeAnd | PipeOr

  /** The single program of a pipe; NoProg is num_progs == 0. */
  datatype Prog = NoProg | Words(argv: seq<string>) | Group(list: seq<Pipe>)

  datatype Pipe = Pipe(mode: ReservedStyle, followup: PipeStyle, prog: Prog)

  /** The pipe that done_pipe always leaves behind, ready to accept commands. */
  const TRAILER := Pipe(ResNone, PipeInvalid, NoProg)

  // ----- what the user writes -----

  datatype Op = And | Or

  datatype Script = Done | Then(unit: Unit, rest: Script)

  /** One `;`-terminated unit: an empty command, or an and-or chain. */
  datatype Unit = Blank | AndOr(first: Command, tail: Tail)

  datatype Tail = End | More(op: Op, next: Command, tail: Tail)

  datatype Command =
    | Simple(argv: seq<string>)
    | If(arms: Arms)
    | Loop(until: bool, cond: Script, body: Script)
    | For(name: string, raw: seq<string>, blanks: nat, body: Script)

  /** `if`/`elif` arms; a whole `if` starts with an Arm. */
  datatype Arms = Fi | Else(body: Script) | Arm(cond: Script, body: Script, rest: Arms)

  /** A chain always runs its first command, so this says that a list runs something. */
  predicate HasCommand(s: Script) {
    s.Then? && (s.unit.AndOr? || HasCommand(s.rest))
  }

  // ----- well-formedness: the places where the flag machine needs a command -----

  predicate WfScript(s: Script) {
    match s
    case Done => true
    case Then(Blank, rest) => WfScript(rest)
    case Then(AndOr(c, t), rest) => WfCommand(c) && WfTail(t) && WfScript(rest)
  }

  predicate WfTail(t: Tail) {
    t.More? ==> WfCommand(t.next) && WfTail(t.tail)
  }

  predicate WfCommand(c: Command) {
    match c
    case Simple(argv) => true
    case If(arms) => arms.Arm? && WfArms(arms)
    case Loop(until, cond, body) => HasCommand(cond) && WfScript(cond) && WfScript(body)
    case For(name, raw, blanks, body) => WfScript(body)
  }

  /**
    Conditions run a command; a `then` that is followed by an `elif` holds at
    least one (possibly empty) pipe, because only a `then` pipe publishes the
    condition's status to the following `elif`.
   */
  predicate WfArms(a: Arms) {
    match a
    case Fi => true
    case Else(body) => WfScript(body)
    case Arm(cond, body, rest) =>
      && HasCommand(cond) && WfScript(cond) && WfScript(body) && WfArms(rest)
      && (rest.Arm? ==> body.Then?)
  }

  // ----- flattening -----

  /** The style of a pipe that is followed by the rest t of its chain. */
  function Follow(t: Tail): PipeStyle {
    match t
    case End => PipeSeq
    case More(And, _, _) => PipeAnd
    case More(Or, _, _) => PipeOr
  }

  function FlattenScript(s: Script, m: ReservedStyle): seq<Pipe>
    decreases s
  {
    match s
    case Done => []
    case Then(u, rest) => FlattenUnit(u, m) + FlattenScript(rest, m)
  }

  function FlattenUnit(u: Unit, m: ReservedStyle): seq<Pipe>
    decreases u
  {
    match u
    case Blank => [Pipe(m, PipeSeq, NoProg)]
    case AndOr(c, t) => [Pipe(m, Follow(t), ProgOf(c))] + FlattenTail(t, m)
  }

  function FlattenTail(t: Tail, m: ReservedStyle): seq<Pipe>
    decreases t
  {
    match t
    case End => []
    case More(op, c, t') => [Pipe(m, Follow(t'), ProgOf(c))] + FlattenTail(t', m)
  }

  function ProgOf(c: Command): Prog
    decreases c, 1
  {
    if c.Simple? then Words(c.argv) else Group(FlattenCompound(c))
  }

  function FlattenArms(a: Arms, m: ReservedStyle): seq<Pipe>
    decreases a
  {
    match a
    case Fi => []
    case Else(body) => FlattenScript(body, ResElse)
    case Arm(cond, body, rest) =>
      FlattenScript(cond, m) + FlattenScript(body, ResThen) + FlattenArms(rest, ResElif)
  }

  function BlankPipes(n: nat, m: ReservedStyle): seq<Pipe> {
    seq(n, i => Pipe(m, PipeSeq, NoProg))
  }

  const FI_PIPE := Pipe(ResFi, PipeSeq, NoProg)
  const DONE_PIPE := Pipe(ResDone, PipeSeq, NoProg)

  function LoopMode(until: bool): ReservedStyle {
    if until then ResUntil else ResWhile
  }

  function ForHead(c: Command): seq<Pipe>
    requires c.For?
  {
    [Pipe(ResFor, PipeSeq, Words([c.name])),
     Pipe(ResIn, PipeSeq, if c.raw == [] then NoProg else Words(c.raw))]
    + BlankPipes(c.blanks, ResIn)
  }

  function FlattenCompound(c: Command): seq<Pipe>
    requires !c.Simple?
    decreases c, 0
  {
    match c
    case If(arms) => FlattenArms(arms, ResIf) + [FI_PIPE, TRAILER]
    case Loop(until, cond, body) =>
      FlattenScript(cond, LoopMode(until)) + FlattenScript(body, ResDo) + [DONE_PIPE, TRAILER]
    case For(name, raw, blanks, body) =>
      ForHead(c) + FlattenScript(body, ResDo) + [DONE_PIPE, TRAILER]
  }

  /** A whole command line: the pipes of the outermost context. */
  function FlattenLine(s: Script): seq<Pipe> {
    FlattenScript(s, ResNone) + [TRAILER]
  }
}
