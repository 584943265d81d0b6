/**
  Parsing any layout of a structured script builds exactly its flattened pipe
  list, by way of its tokens; together with the interpreter's refinement this
  takes a command line from its characters to the commands it runs.
 */
module HushParsing {
  import opened Options
  import opened Strings
  import opened HushSyntax
  import opened HushKeywords
  import opened HushParser
  import opened HushMachine
  import opened HushSemantics
  import opened HushRefinement
  import opened HushChains
  import opened HushStatus

  // ----- the tokens of a script, followed by k -----

  /**
    Word: a keyword, or the name of a `for`.  Arg: a word of a command or of a `for`
    list.  Sep: the end of a unit; inner says that it lies inside a compound.
   */
  datatype Token = Word(text: string) | Arg(text: string) | Sep(inner: bool) | Oper(op: Op)

  function ArgTokens(ws: seq<string>, k: seq<Token>): seq<Token> {
    if ws == [] then k else [Arg(ws[0])] + ArgTokens(ws[1..], k)
  }

  function BlanksTokens(n: nat, k: seq<Token>): seq<Token> {
    if n == 0 then k else [Sep(true)] + BlanksTokens(n - 1, k)
  }

  function ScriptTokens(s: Script, inner: bool, k: seq<Token>): seq<Token>
    decreases s, 0
  {
    match s
    case Done => k
    case Then(Blank, rest) => [Sep(inner)] + ScriptTokens(rest, inner, k)
    case Then(AndOr(c, t), rest) =>
      assert s decreases to s.unit;
      CommandTokens(c, TailTokens(t, [Sep(inner)] + ScriptTokens(rest, inner, k)))
  }

  function TailTokens(t: Tail, k: seq<Token>): seq<Token>
    decreases t
  {
    match t
    case End => k
    case More(op, c, t') => [Oper(op)] + CommandTokens(c, TailTokens(t', k))
  }

  function CommandTokens(c: Command, k: seq<Token>): seq<Token>
    decreases c
  {
    match c
    case Simple(argv) => ArgTokens(argv, k)
    case If(arms) => [Word("if")] + ArmTokens(arms, k)
    case Loop(until, cond, body) =>
      [Word(if until then "until" else "while")] + ScriptTokens(cond, true, DoTokens(body, k))
    case For(name, raw, blanks, body) =>
      [Word("for")] + ([Word(name)] + ([Word("in")]
        + ArgTokens(raw, [Sep(true)] + BlanksTokens(blanks, DoTokens(body, k)))))
  }

  function DoTokens(body: Script, k: seq<Token>): seq<Token>
    decreases body, 1
  {
    [Word("do")] + ScriptTokens(body, true, [Word("done")] + k)
  }

  /** The tokens of an arm behind its `if` or `elif`. */
  function ArmTokens(a: Arms, k: seq<Token>): seq<Token>
    decreases a, 0
  {
    match a
    case Arm(cond, body, rest) =>
      ScriptTokens(cond, true, [Word("then")] + ScriptTokens(body, true, RestTokens(rest, k)))
    case _ => k
  }

  function RestTokens(a: Arms, k: seq<Token>): seq<Token>
    decreases a, 1
  {
    match a
    case Fi => [Word("fi")] + k
    case Else(body) => [Word("else")] + ScriptTokens(body, true, [Word("fi")] + k)
    case Arm(_, _, _) => [Word("elif")] + ArmTokens(a, k)
  }

  // ----- scripts that can be written down -----

  /** The reserved words of the shell; every other word can name a command. */
  const RESERVED: set<string> :=
    {"if", "then", "elif", "else", "fi", "for", "while", "until", "in", "do", "done"}

  /** The characters that mean something to the shell; all others stand for themselves. */
  predicate IsSpecial(ch: char) {
    ch in " \t\n;&|#$\\\"'" || ch == 4 as char
  }

  lemma KeywordIff(w: string)
    ensures KeywordOf(w).Some? <==> w in RESERVED
  {
  }

  lemma SpecialIff(ch: char)
    ensures Class(ch) != 0 <==> IsSpecial(ch)
  {
  }

  predicate PlainWord(w: string) {
    w != "" && forall i :: 0 <= i < |w| ==> !IsSpecial(w[i])
  }

  /** Text that may stand in single quotes; a backslash would be taken away later. */
  predicate Verbatim(w: string) {
    '\'' !in w && '\\' !in w
  }

  /** The first word is no keyword: quotes would not hide one. */
  predicate WritableWords(ws: seq<string>) {
    ws != [] ==> ws[0] !in RESERVED
  }

  predicate WritableScript(s: Script) {
    match s
    case Done => true
    case Then(Blank, rest) => WritableScript(rest)
    case Then(AndOr(c, t), rest) => WritableCommand(c) && WritableTail(t) && WritableScript(rest)
  }

  predicate WritableTail(t: Tail) {
    t.More? ==> WritableCommand(t.next) && WritableTail(t.tail)
  }

  predicate WritableCommand(c: Command) {
    match c
    case Simple(argv) => argv != [] && WritableWords(argv)
    case If(arms) => arms.Arm? && WritableArms(arms)
    case Loop(_, cond, body) => WritableScript(cond) && WritableScript(body)
    case For(name, raw, _, body) =>
      PlainWord(name) && name !in RESERVED && WritableWords(raw) && WritableScript(body)
  }

  predicate WritableArms(a: Arms) {
    match a
    case Fi => true
    case Else(body) => WritableScript(body)
    case Arm(cond, body, rest) => WritableScript(cond) && WritableScript(body) && WritableArms(rest)
  }

  // ----- parsing tokens -----

  predicate Quiet(st: ParseState) {
    st.dest == OString("", false, false)
  }

  /** Between commands, in a context that takes commands. */
  predicate Idle(st: ParseState) {
    Quiet(st) && st.ctx.child == NO_CHILD && !st.ctx.mark.w.ResIn? && !st.ctx.mark.w.ResFor? && !st.ctx.mark.w.ResSntx?
  }

  /** In the context of a compound. */
  predicate Inner(st: ParseState) {
    !st.ctx.mark.w.ResNone?
  }

  function AddArgs(st: ParseState, ws: seq<string>): ParseState {
    st.(ctx := st.ctx.(child := st.ctx.child.(argv := st.ctx.child.argv + ws)))
  }

  function StyleOf(op: Op): PipeStyle {
    if op.And? then PipeAnd else PipeOr
  }

  /** The word w would become an argument. */
  predicate TakesArg(st: ParseState, w: string) {
    && st.ctx.child.group.None? && !st.ctx.mark.w.ResFor?
    && (st.ctx.child.argv == [] ==> w !in RESERVED)
  }

  /** What one token does to the parser; None where it is no proper token of a script. */
  function Feed(st: ParseState, t: Token): Option<ParseState> {
    match t
    case Word(w) =>
      var (st', err) := DoneWord(st.(dest := OString(w, false, false)));
      if err || !PlainWord(w) then None else Some(st')
    case Arg(w) => if TakesArg(st, w) then Some(AddArgs(st, [w])) else None
    case Sep(inner) =>
      if inner && !Inner(st) then None else Some(st.(ctx := DonePipe(st.ctx, PipeSeq)))
    case Oper(op) => Some(st.(ctx := DonePipe(st.ctx, StyleOf(op))))
  }

  function ParseTokens(st: ParseState, ts: seq<Token>): Option<ParseState>
    decreases |ts|
  {
    if ts == [] then Some(st)
    else
      match Feed(st, ts[0])
      case None => None
      case Some(st) => ParseTokens(st, ts[1..])
  }

  lemma Fed(st: ParseState, t: Token, k: seq<Token>)
    requires Feed(st, t).Some?
    ensures ParseTokens(st, [t] + k) == ParseTokens(Feed(st, t).value, k)
  {
    assert ([t] + k)[1..] == k;
  }

  lemma PlainKept(w: string)
    requires PlainWord(w)
    ensures Unescape(w) == w
  {
    PlainVerbatim(w);
    UnescapeVerbatim(w, "");
    assert w + "" == w;
  }

  /** Words of which the first is no keyword become arguments. */
  lemma {:induction false} WordsParsed(st: ParseState, ws: seq<string>, k: seq<Token>)
    requires st.ctx.child.group.None? && !st.ctx.mark.w.ResFor?
    requires ws != [] && st.ctx.child.argv == [] ==> ws[0] !in RESERVED
    ensures ParseTokens(st, ArgTokens(ws, k)) == ParseTokens(AddArgs(st, ws), k)
    decreases |ws|
  {
    if ws == [] {
      assert AddArgs(st, ws) == st;
    } else {
      hide ParseTokens;
      Fed(st, Arg(ws[0]), ArgTokens(ws[1..], k));
      WordsParsed(AddArgs(st, [ws[0]]), ws[1..], k);
      assert st.ctx.child.argv + [ws[0]] + ws[1..] == st.ctx.child.argv + ws;
    }
  }

  /** A keyword that is allowed here acts through reserved_word. */
  lemma KeywordParsed(st: ParseState, w: string, k: seq<Token>)
    requires Quiet(st) && st.ctx.child == NO_CHILD && KeywordOf(w).Some?
    requires !ReservedWord(st, KeywordOf(w).value).0.ctx.mark.w.ResSntx?
    ensures ParseTokens(st, [Word(w)] + k) == ParseTokens(ReservedWord(st, KeywordOf(w).value).0, k)
  {
    hide ParseTokens;
    KeywordPlain(w);
    Fed(st, Word(w), k);
  }

  lemma KeywordPlain(w: string)
    requires w in RESERVED
    ensures PlainWord(w)
  {
  }

  // ----- pipes -----

  function Plus(st: ParseState, ps: seq<Pipe>): ParseState {
    st.(ctx := st.ctx.(pipes := st.ctx.pipes + ps, child := NO_CHILD))
  }

  /** The child that a parsed command leaves open. */
  function ChildOf(c: Command): Child {
    if c.Simple? then Child(c.argv, None) else Child([], Some(FlattenCompound(c)))
  }

  function Open(st: ParseState, c: Child): ParseState {
    st.(ctx := st.ctx.(child := c))
  }

  lemma SepParsed(st: ParseState, inner: bool, k: seq<Token>)
    requires inner ==> Inner(st)
    ensures ParseTokens(st, [Sep(inner)] + k)
            == ParseTokens(Plus(st, [Pipe(st.ctx.mark.w, PipeSeq, ProgOfChild(st.ctx.child))]), k)
  {
    hide ParseTokens;
    Fed(st, Sep(inner), k);
  }

  lemma OperParsed(st: ParseState, op: Op, k: seq<Token>)
    ensures ParseTokens(st, [Oper(op)] + k)
            == ParseTokens(Plus(st, [Pipe(st.ctx.mark.w, StyleOf(op), ProgOfChild(st.ctx.child))]), k)
  {
    hide ParseTokens;
    Fed(st, Oper(op), k);
  }

  lemma {:induction false} BlanksParsed(st: ParseState, n: nat, k: seq<Token>)
    requires Inner(st) && st.ctx.child == NO_CHILD
    ensures ParseTokens(st, BlanksTokens(n, k))
            == ParseTokens(Plus(st, BlankPipes(n, st.ctx.mark.w)), k)
    decreases n
  {
    if n == 0 {
      assert Plus(st, BlankPipes(n, st.ctx.mark.w)) == st;
    } else {
      hide ParseTokens;
      var w := st.ctx.mark.w;
      SepParsed(st, true, BlanksTokens(n - 1, k));
      BlanksParsed(Plus(st, [Pipe(w, PipeSeq, NoProg)]), n - 1, k);
      assert [Pipe(w, PipeSeq, NoProg)] + BlankPipes(n - 1, w) == BlankPipes(n, w);
      PlusPlus(st, [Pipe(w, PipeSeq, NoProg)], BlankPipes(n - 1, w));
    }
  }

  lemma PlusPlus(st: ParseState, p: seq<Pipe>, q: seq<Pipe>)
    ensures Plus(Plus(st, p), q) == Plus(st, p + q)
  {
    assert st.ctx.pipes + p + q == st.ctx.pipes + (p + q);
  }

  // ----- scripts -----

  lemma {:induction false} ScriptParsed(st: ParseState, s: Script, k: seq<Token>)
    requires Idle(st) && WritableScript(s)
    ensures ParseTokens(st, ScriptTokens(s, Inner(st), k))
            == ParseTokens(Plus(st, FlattenScript(s, st.ctx.mark.w)), k)
    decreases s, 0
  {
    hide ParseTokens;
    var m := st.ctx.mark.w;
    match s
    case Done => assert Plus(st, []) == st;
    case Then(Blank, rest) =>
      var p := [Pipe(m, PipeSeq, NoProg)];
      SepParsed(st, Inner(st), ScriptTokens(rest, Inner(st), k));
      ScriptParsed(Plus(st, p), rest, k);
      PlusPlus(st, p, FlattenScript(rest, m));
    case Then(AndOr(c, t), rest) =>
      assert s decreases to s.unit;
      var p, q := FlattenUnit(s.unit, m), FlattenScript(rest, m);
      var k' := ScriptTokens(rest, Inner(st), k);
      CommandParsed(st, c, TailTokens(t, [Sep(Inner(st))] + k'));
      TailParsed(st, c, t, [Sep(Inner(st))] + k');
      TailClosed(st, c, t);
      SepParsed(TailOpen(st, c, t), Inner(st), k');
      ScriptParsed(Plus(st, p), rest, k);
      PlusPlus(st, p, q);
  }

  /** The state behind a chain that is not yet closed. */
  function TailOpen(st: ParseState, c: Command, t: Tail): ParseState
    decreases t
  {
    match t
    case End => Open(st, ChildOf(c))
    case More(op, c', t') => TailOpen(Plus(st, [Pipe(st.ctx.mark.w, StyleOf(op), ProgOf(c))]), c', t')
  }

  lemma {:induction false} TailParsed(st: ParseState, c: Command, t: Tail, k: seq<Token>)
    requires Idle(st) && WritableCommand(c) && WritableTail(t)
    ensures ParseTokens(Open(st, ChildOf(c)), TailTokens(t, k)) == ParseTokens(TailOpen(st, c, t), k)
    decreases t, 0
  {
    hide ParseTokens;
    match t
    case End =>
    case More(op, c', t') =>
      var st' := Plus(st, [Pipe(st.ctx.mark.w, StyleOf(op), ProgOf(c))]);
      OperParsed(Open(st, ChildOf(c)), op, CommandTokens(c', TailTokens(t', k)));
      assert ProgOfChild(ChildOf(c)) == ProgOf(c);
      CommandParsed(st', c', TailTokens(t', k));
      TailParsed(st', c', t', k);
  }

  /** Closing a chain completes the pipes of its unit. */
  lemma {:induction false} TailClosed(st: ParseState, c: Command, t: Tail)
    requires WritableCommand(c) && WritableTail(t)
    ensures var st' := TailOpen(st, c, t);
      && st' == Open(st.(ctx := st'.ctx), st'.ctx.child) && st'.ctx.mark == st.ctx.mark
      && Plus(st', [Pipe(st.ctx.mark.w, PipeSeq, ProgOfChild(st'.ctx.child))]) ==
          Plus(st, FlattenUnit(AndOr(c, t), st.ctx.mark.w))
    decreases t
  {
    var m := st.ctx.mark.w;
    assert ProgOfChild(ChildOf(c)) == ProgOf(c);
    match t
    case End => assert FlattenUnit(AndOr(c, t), m) == [Pipe(m, PipeSeq, ProgOf(c))];
    case More(op, c', t') =>
      var p := [Pipe(m, StyleOf(op), ProgOf(c))];
      TailClosed(Plus(st, p), c', t');
      PlusPlus(st, p, FlattenUnit(AndOr(c', t'), m));
  }

  lemma {:induction false} CommandParsed(st: ParseState, c: Command, k: seq<Token>)
    requires Idle(st) && WritableCommand(c)
    ensures ParseTokens(st, CommandTokens(c, k)) == ParseTokens(Open(st, ChildOf(c)), k)
    decreases c, 1
  {
    hide ParseTokens;
    match c
    case Simple(argv) =>
      WordsParsed(st, argv, k);
      assert [] + argv == argv;
    case If(arms) =>
      KeywordParsed(st, "if", ArmTokens(arms, k));
      ArmParsed(st, arms, ResIf, [], k);
      assert [] + FlattenCompound(c) == FlattenCompound(c);
    case Loop(until, cond, body) =>
      LoopParsed(st, c, k);
    case For(_, _, _, _) =>
      ForParsed(st, c, k);
  }

  /** The innermost context holds pipes ps under keyword w; st is the saved one. */
  function Inside(st: ParseState, w: ReservedStyle, ps: seq<Pipe>): ParseState {
    ParseState(Context(Mark(w, FollowUps(w)), ps, NO_CHILD), [st.ctx] + st.stack, st.dest)
  }

  /** A closing keyword turns the pipes of the innermost context into the saved context's group. */
  lemma ClosingParsed(st: ParseState, w: ReservedStyle, ps: seq<Pipe>, word: string, k: seq<Token>)
    requires Idle(st) && KeywordOf(word).Some?
    requires var code := KeywordOf(word).value;
      !w.ResNone? && code in FollowUps(w) && FollowUps(code) == {ResNone}
    ensures ParseTokens(Inside(st, w, ps), [Word(word)] + k)
            == ParseTokens(Open(st, Child([], Some(ps + [Pipe(KeywordOf(word).value, PipeSeq, NoProg), TRAILER]))), k)
  {
    hide ParseTokens;
    var code := KeywordOf(word).value;
    KeywordParsed(Inside(st, w, ps), word, k);
    assert ([st.ctx] + st.stack)[1..] == st.stack;
    assert ps + [Pipe(code, PipeSeq, NoProg)] + [TRAILER] == ps + [Pipe(code, PipeSeq, NoProg), TRAILER];
  }

  /** An inner keyword moves the innermost context to its own section. */
  lemma SectionParsed(st: ParseState, w: ReservedStyle, ps: seq<Pipe>, word: string, k: seq<Token>)
    requires Idle(st) && KeywordOf(word).Some?
    requires var code := KeywordOf(word).value;
      !w.ResNone? && code in FollowUps(w) && ResNone !in FollowUps(code) && ResXxxx !in FollowUps(code)
    ensures ParseTokens(Inside(st, w, ps), [Word(word)] + k)
            == ParseTokens(Inside(st, KeywordOf(word).value, ps), k)
  {
    hide ParseTokens;
    KeywordParsed(Inside(st, w, ps), word, k);
  }

  lemma {:induction false} ArmParsed(st: ParseState, a: Arms, w: ReservedStyle, ps: seq<Pipe>, k: seq<Token>)
    requires Idle(st) && a.Arm? && WritableArms(a) && (w.ResIf? || w.ResElif?)
    ensures ParseTokens(Inside(st, w, ps), ArmTokens(a, k))
            == ParseTokens(Open(st, Child([], Some(ps + (FlattenArms(a, w) + [FI_PIPE, TRAILER])))), k)
    decreases a, 0
  {
    hide ParseTokens, FlattenScript, ScriptTokens;
    var Arm(cond, body, rest) := a;
    var p, q := FlattenScript(cond, w), FlattenScript(body, ResThen);
    var k2 := RestTokens(rest, k);
    var k1 := [Word("then")] + ScriptTokens(body, true, k2);
    ScriptParsed(Inside(st, w, ps), cond, k1);
    SectionParsed(st, w, ps + p, "then", ScriptTokens(body, true, k2));
    ScriptParsed(Inside(st, ResThen, ps + p), body, k2);
    RestParsed(st, rest, ps + p + q, k);
    Regroup(ps, p, q, FlattenArms(rest, ResElif), [FI_PIPE, TRAILER]);
  }

  lemma Regroup(a: seq<Pipe>, b: seq<Pipe>, c: seq<Pipe>, d: seq<Pipe>, e: seq<Pipe>)
    ensures a + b + c + (d + e) == a + (b + c + d + e)
  {
  }

  lemma {:induction false} RestParsed(st: ParseState, a: Arms, ps: seq<Pipe>, k: seq<Token>)
    requires Idle(st) && WritableArms(a)
    ensures ParseTokens(Inside(st, ResThen, ps), RestTokens(a, k))
            == ParseTokens(Open(st, Child([], Some(ps + (FlattenArms(a, ResElif) + [FI_PIPE, TRAILER])))), k)
    decreases a, 1
  {
    hide ParseTokens;
    match a
    case Fi =>
      ClosingParsed(st, ResThen, ps, "fi", k);
      assert [] + [FI_PIPE, TRAILER] == [FI_PIPE, TRAILER];
    case Else(els) =>
      SectionParsed(st, ResThen, ps, "else", ScriptTokens(els, true, [Word("fi")] + k));
      ScriptParsed(Inside(st, ResElse, ps), els, [Word("fi")] + k);
      ClosingParsed(st, ResElse, ps + FlattenScript(els, ResElse), "fi", k);
      assert ps + FlattenScript(els, ResElse) + [FI_PIPE, TRAILER] ==
          ps + (FlattenScript(els, ResElse) + [FI_PIPE, TRAILER]);
    case Arm(_, _, _) =>
      SectionParsed(st, ResThen, ps, "elif", ArmTokens(a, k));
      ArmParsed(st, a, ResElif, ps, k);
  }

  /** `do`, the body and `done`. */
  lemma {:induction false} DoParsed(st: ParseState, w: ReservedStyle, ps: seq<Pipe>, body: Script, k: seq<Token>)
    requires Idle(st) && WritableScript(body) && ResDo in FollowUps(w)
    ensures ParseTokens(Inside(st, w, ps), DoTokens(body, k))
            == ParseTokens(Open(st, Child([], Some(ps + FlattenScript(body, ResDo) + [DONE_PIPE, TRAILER]))), k)
    decreases body, 1
  {
    hide ParseTokens;
    SectionParsed(st, w, ps, "do", ScriptTokens(body, true, [Word("done")] + k));
    ScriptParsed(Inside(st, ResDo, ps), body, [Word("done")] + k);
    ClosingParsed(st, ResDo, ps + FlattenScript(body, ResDo), "done", k);
  }

  lemma {:induction false} LoopParsed(st: ParseState, c: Command, k: seq<Token>)
    requires Idle(st) && WritableCommand(c) && c.Loop?
    ensures ParseTokens(st, CommandTokens(c, k)) == ParseTokens(Open(st, ChildOf(c)), k)
    decreases c, 0
  {
    hide ParseTokens;
    var w := LoopMode(c.until);
    var p, k' := FlattenScript(c.cond, w), DoTokens(c.body, k);
    KeywordParsed(st, if c.until then "until" else "while", ScriptTokens(c.cond, true, k'));
    ScriptParsed(Inside(st, w, []), c.cond, k');
    assert [] + p == p;
    DoParsed(st, w, p, c.body, k);
  }

  lemma {:induction false} ForParsed(st: ParseState, c: Command, k: seq<Token>)
    requires Idle(st) && WritableCommand(c) && c.For?
    ensures ParseTokens(st, CommandTokens(c, k)) == ParseTokens(Open(st, ChildOf(c)), k)
    decreases c, 0
  {
    hide ParseTokens;
    var For(name, raw, blanks, body) := c;
    var k3 := DoTokens(body, k);
    var k2 := ArgTokens(raw, [Sep(true)] + BlanksTokens(blanks, k3));
    KeywordParsed(st, "for", [Word(name)] + ([Word("in")] + k2));
    ForNameParsed(st, name, [Word("in")] + k2);
    var p := [Pipe(ResFor, PipeSeq, Words([name]))];
    SectionParsed(st, ResFor, p, "in", k2);
    WordsParsed(Inside(st, ResIn, p), raw, [Sep(true)] + BlanksTokens(blanks, k3));
    var st1 := AddArgs(Inside(st, ResIn, p), raw);
    assert [] + raw == raw;
    SepParsed(st1, true, BlanksTokens(blanks, k3));
    var q := p + [Pipe(ResIn, PipeSeq, if raw == [] then NoProg else Words(raw))];
    BlanksParsed(Inside(st, ResIn, q), blanks, k3);
    assert q + BlankPipes(blanks, ResIn) == ForHead(c);
    DoParsed(st, ResIn, ForHead(c), body, k);
  }

  /** The word behind `for` becomes a pipe of its own. */
  lemma ForNameParsed(st: ParseState, name: string, k: seq<Token>)
    requires Idle(st) && PlainWord(name) && name !in RESERVED
    ensures ParseTokens(Inside(st, ResFor, []), [Word(name)] + k)
            == ParseTokens(Inside(st, ResFor, [Pipe(ResFor, PipeSeq, Words([name]))]), k)
  {
    hide ParseTokens;
    PlainKept(name);
    assert [] + [name] == [name];
    assert [] + [Pipe(ResFor, PipeSeq, Words([name]))] == [Pipe(ResFor, PipeSeq, Words([name]))];
    Fed(Inside(st, ResFor, []), Word(name), k);
  }

  // ----- characters -----

  lemma {:induction false} PlainGathered(st: ParseState, w: string, k: string, trigger: bool)
    requires !st.dest.quote && forall i :: 0 <= i < |w| ==> !IsSpecial(w[i])
    ensures ParseStream(st, w + k, trigger)
            == ParseStream(st.(dest := st.dest.(data := st.dest.data + w)), k, trigger)
    decreases |w|
  {
    if w == "" {
      assert w + k == k && st.dest.data + w == st.dest.data;
    } else {
      var st' := st.(dest := AddQ(st.dest, w[0]));
      assert (w + k)[1..] == w[1..] + k;
      PlainGathered(st', w[1..], k, trigger);
      assert st.dest.data + w == st'.dest.data + w[1..];
    }
  }

  // ----- double quotes -----

  /** Text that may stand in double quotes: what would act there stands behind a backslash. */
  predicate Quotable(s: string) {
    if s == "" then true
    else if s[0] == '\\' then |s| >= 2 && Quotable(s[2..])
    else s[0] != '$' && s[0] != '\'' && s[0] != '"' && s[0] != SUBSTED && Quotable(s[1..])
  }

  function Escape(s: string): string {
    if s == "" then "" else Quoted(s[0]) + Escape(s[1..])
  }

  function Quoted(ch: char): string {
    if NeedsEscape(ch) then ['\\', ch] else [ch]
  }

  lemma Cat(a: string, b: string, c: string)
    ensures a + (b + c) == (a + b) + c
  {
  }

  lemma QuotedChar(st: ParseState, ch: char, k: string, trigger: bool)
    requires st.dest.quote && Class(ch) != 3
    ensures ParseStream(st, [ch] + k, trigger) == ParseStream(st.(dest := AddQ(st.dest, ch)), k, trigger)
  {
    assert ([ch] + k)[1..] == k;
  }

  lemma QuotedPair(st: ParseState, ch: char, k: string, trigger: bool)
    ensures ParseStream(st, ['\\', ch] + k, trigger)
            == ParseStream(st.(dest := AddQ(AddQ(st.dest, '\\'), ch)), k, trigger)
  {
    var t := ['\\', ch] + k;
    assert t[1..][0] == ch && t[1..][1..] == k;
  }

  lemma {:induction false} QuotedGathered(st: ParseState, text: string, k: string, trigger: bool)
    requires st.dest.quote && Quotable(text)
    ensures ParseStream(st, text + k, trigger)
            == ParseStream(st.(dest := st.dest.(data := st.dest.data + Escape(text))), k, trigger)
    decreases |text|
  {
    hide ParseStream;
    if text == "" {
      assert text + k == k && st.dest.data + "" == st.dest.data;
    } else if text[0] == '\\' {
      var rest := text[2..];
      var st' := st.(dest := AddQ(AddQ(st.dest, '\\'), text[1]));
      assert text + k == ['\\', text[1]] + (rest + k);
      QuotedPair(st, text[1], rest + k, trigger);
      QuotedGathered(st', rest, k, trigger);
      assert text == ['\\', text[1]] + rest;
      EscapePair(text[1], rest);
      Cat(st.dest.data, ['\\', '\\'], Quoted(text[1]) + Escape(rest));
      Cat(st.dest.data + ['\\', '\\'], Quoted(text[1]), Escape(rest));
    } else {
      var st' := st.(dest := AddQ(st.dest, text[0]));
      assert text + k == [text[0]] + (text[1..] + k);
      QuotedChar(st, text[0], text[1..] + k, trigger);
      QuotedGathered(st', text[1..], k, trigger);
      Cat(st.dest.data, Quoted(text[0]), Escape(text[1..]));
    }
  }

  lemma EscapePair(ch: char, rest: string)
    ensures Escape(['\\', ch] + rest) == ['\\', '\\'] + (Quoted(ch) + Escape(rest))
  {
    var t := ['\\', ch] + rest;
    assert t[1..] == [ch] + rest && t[1..][1..] == rest;
  }

  // ----- words: the pieces they are spelled with -----

  /**
    Chars: characters that stand for themselves.  Slash: a character behind a
    backslash.  Toggle: a double quote, which opens or closes.  Dollar, Braces,
    Status: `$name`, `${param}` and `$?`.
   */
  datatype Piece =
    | Chars(text: string) | Slash(ch: char) | Toggle | Single(text: string)
    | Dollar(name: string) | Braces(param: string) | Status

  function PieceText(p: Piece): string {
    match p
    case Chars(t) => t
    case Slash(ch) => ['\\', ch]
    case Toggle => "\""
    case Single(t) => ['\''] + (t + ['\''])
    case _ => ['$'] + BehindDollar(p)
  }

  function BehindDollar(p: Piece): string {
    match p
    case Dollar(name) => name
    case Braces(param) => ['{'] + (param + ['}'])
    case _ => "?"
  }

  /** What the piece is in the argument; variables stand between markers until the command runs. */
  function PieceValue(p: Piece): string {
    match p
    case Chars(t) => t
    case Slash(ch) => [ch]
    case Toggle => ""
    case Single(t) => t
    case Dollar(name) => Marked(name)
    case Braces(param) => Marked(param)
    case Status => Marked("$?")
  }

  function Marked(name: string): string {
    [MARKER] + name + [MARKER]
  }

  /** What is gathered for the piece; quote says that it stands in double quotes. */
  function PieceData(p: Piece, quote: bool): string {
    match p
    case Chars(t) => if quote then Escape(t) else t
    case Slash(ch) => ['\\', ch]
    case _ => PieceValue(p)
  }

  /** Letters, those of Latin-1 included, digits and the underscore. */
  predicate InName(ch: char) {
    var code := ch as int;
    || 65 <= code <= 90 || 97 <= code <= 122 || (192 <= code <= 255 && code !in {215, 247})
    || '0' <= ch <= '9' || ch == '_'
  }

  predicate IsName(s: string) {
    s != "" && !('0' <= s[0] <= '9' || s[0] == '_') && forall i :: 0 <= i < |s| ==> InName(s[i])
  }

  predicate PieceFits(p: Piece, quote: bool) {
    match p
    case Chars(t) => if quote then t != "" && Quotable(t) else PlainWord(t)
    case Slash(_) => !quote
    case Toggle => true
    case Single(t) => Verbatim(t)
    case Dollar(name) => IsName(name)
    case Braces(param) => '}' !in param && '\\' !in param
    case Status => true
  }

  /** Text that ends a name in front of it. */
  predicate EndsName(k: string) {
    k == "" || !InName(k[0])
  }

  function Spelled(ps: seq<Piece>): string {
    if ps == [] then "" else PieceText(ps[0]) + Spelled(ps[1..])
  }

  function Value(ps: seq<Piece>): string {
    if ps == [] then "" else PieceValue(ps[0]) + Value(ps[1..])
  }

  function QuoteAfter(p: Piece, quote: bool): bool {
    if p.Toggle? then !quote else quote
  }

  function Data(ps: seq<Piece>, quote: bool): string {
    if ps == [] then "" else PieceData(ps[0], quote) + Data(ps[1..], QuoteAfter(ps[0], quote))
  }

  /** Quotes are closed at the end, and no name runs into the next piece. */
  predicate PiecesFit(ps: seq<Piece>, quote: bool) {
    if ps == [] then !quote
    else
      && PieceFits(ps[0], quote) && PiecesFit(ps[1..], QuoteAfter(ps[0], quote))
      && (ps[0].Dollar? ==> EndsName(Spelled(ps[1..])))
  }

  // ----- what is gathered unescapes to the value -----

  lemma {:induction false} UnescapeVerbatim(a: string, b: string)
    requires '\\' !in a
    ensures Unescape(a + b) == a + Unescape(b)
    decreases |a|
  {
    if a == "" {
      assert a + b == b;
    } else {
      assert (a + b)[1..] == a[1..] + b;
      UnescapeVerbatim(a[1..], b);
    }
  }

  lemma UnescapeQuoted(ch: char, b: string)
    ensures Unescape(Quoted(ch) + b) == [ch] + Unescape(b)
  {
    var t := Quoted(ch) + b;
    if NeedsEscape(ch) {
      assert t[2..] == b;
    } else {
      assert t[1..] == b;
    }
  }

  lemma {:induction false} UnescapeEscaped(a: string, b: string)
    ensures Unescape(Escape(a) + b) == a + Unescape(b)
    decreases |a|
  {
    hide Unescape, Quoted;
    if a == "" {
      assert Escape(a) + b == b;
    } else {
      var e := Escape(a[1..]);
      Cat(Quoted(a[0]), e, b);
      UnescapeQuoted(a[0], e + b);
      UnescapeEscaped(a[1..], b);
      Cat([a[0]], a[1..], Unescape(b));
    }
  }

  lemma EscapeUndone(s: string)
    ensures Unescape(Escape(s)) == s
  {
    UnescapeEscaped(s, "");
    assert Escape(s) + "" == Escape(s) && s + "" == s;
  }

  lemma PlainVerbatim(w: string)
    requires forall i :: 0 <= i < |w| ==> !IsSpecial(w[i])
    ensures '\\' !in w
  {
    forall i | 0 <= i < |w|
      ensures w[i] != '\\'
    {
      assert !IsSpecial(w[i]);
    }
  }

  lemma PieceUndone(p: Piece, quote: bool, k: string)
    requires PieceFits(p, quote)
    ensures Unescape(PieceData(p, quote) + k) == PieceValue(p) + Unescape(k)
  {
    match p
    case Chars(t) =>
      if quote {
        UnescapeEscaped(t, k);
      } else {
        PlainVerbatim(t);
        UnescapeVerbatim(t, k);
      }
    case Slash(ch) => assert (['\\', ch] + k)[2..] == k;
    case Dollar(name) =>
      forall i | 0 <= i < |name|
        ensures name[i] != '\\'
      {
        assert InName(name[i]);
      }
      UnescapeVerbatim(Marked(name), k);
    case _ => UnescapeVerbatim(PieceValue(p), k);
  }

  lemma {:induction false} DataUndone(ps: seq<Piece>, quote: bool)
    requires PiecesFit(ps, quote)
    ensures Unescape(Data(ps, quote)) == Value(ps)
    decreases |ps|
  {
    if ps != [] {
      hide Unescape;
      var q := QuoteAfter(ps[0], quote);
      DataUndone(ps[1..], q);
      PieceUndone(ps[0], quote, Data(ps[1..], q));
    } else {
      assert Unescape("") == "";
    }
  }

  // ----- reading pieces -----

  function AfterPiece(o: OString, p: Piece): OString {
    OString(o.data + PieceData(p, o.quote), QuoteAfter(p, o.quote), o.nonnull || p.Toggle? || p.Single?)
  }

  lemma {:induction false} NameSpanIs(name: string, k: string)
    requires forall i :: 0 <= i < |name| ==> InName(name[i])
    requires EndsName(k)
    ensures NameSpan(name + k) == |name|
    decreases |name|
  {
    if name == "" {
      assert name + k == k;
    } else {
      assert (name + k)[1..] == name[1..] + k;
      NameSpanIs(name[1..], k);
    }
  }

  lemma NameHandled(o: OString, name: string, k: string)
    requires IsName(name) && EndsName(k)
    ensures HandleDollar(o, name + k) == Some((AddAll(o, Marked(name)), k))
  {
    NameSpanIs(name, k);
    assert (name + k)[..|name|] == name && (name + k)[|name|..] == k;
  }

  lemma BracesHandled(o: OString, param: string, k: string)
    requires '}' !in param
    ensures HandleDollar(o, BehindDollar(Braces(param)) + k) == Some((AddAll(o, Marked(param)), k))
  {
    var inp, n := BehindDollar(Braces(param)) + k, |param|;
    assert inp[0] == '{' && inp[1..] == param + (['}'] + k);
    FindBehind(param, '}', k);
    hide Find, NameSpan;
    assert inp[1..n + 1] == param && inp[n + 2..] == k;
  }

  lemma StatusHandled(o: OString, k: string)
    ensures HandleDollar(o, "?" + k) == Some((AddAll(o, Marked("$?")), k))
  {
    assert ("?" + k)[1..] == k;
    assert Marked("$?") == [MARKER, '$', '?', MARKER];
  }

  lemma DollarGathered(st: ParseState, rest: string, o: OString, k: string, trigger: bool)
    requires HandleDollar(st.dest, rest) == Some((o, k))
    ensures ParseStream(st, ['$'] + rest, trigger) == ParseStream(st.(dest := o), k, trigger)
  {
    hide HandleDollar;
    assert (['$'] + rest)[1..] == rest;
  }

  lemma DollarRead(st: ParseState, p: Piece, k: string, trigger: bool)
    requires (p.Dollar? || p.Braces? || p.Status?) && PieceFits(p, st.dest.quote) && (p.Dollar? ==> EndsName(k))
    ensures ParseStream(st, PieceText(p) + k, trigger) == ParseStream(st.(dest := AfterPiece(st.dest, p)), k, trigger)
  {
    hide ParseStream, HandleDollar, Marked;
    match p {
      case Dollar(name) => NameHandled(st.dest, name, k);
      case Braces(param) => BracesHandled(st.dest, param, k);
      case Status => StatusHandled(st.dest, k);
    }
    hide BehindDollar, IsName, EndsName;
    Cat(['$'], BehindDollar(p), k);
    DollarGathered(st, BehindDollar(p) + k, AfterPiece(st.dest, p), k, trigger);
  }

  lemma SingleRead(st: ParseState, t: string, k: string, trigger: bool)
    requires Verbatim(t)
    ensures ParseChar(st, PieceText(Single(t)) + k, trigger) == Go(st.(dest := AfterPiece(st.dest, Single(t))), k)
  {
    var inp := PieceText(Single(t)) + k;
    var rest := inp[1..];
    assert rest == t + (['\''] + k);
    FindBehind(t, '\'', k);
    assert rest[..|t|] == t && rest[|t| + 1..] == k;
  }

  lemma PieceRead(st: ParseState, p: Piece, k: string, trigger: bool)
    requires PieceFits(p, st.dest.quote) && (p.Dollar? ==> EndsName(k))
    ensures ParseStream(st, PieceText(p) + k, trigger) == ParseStream(st.(dest := AfterPiece(st.dest, p)), k, trigger)
  {
    match p
    case Chars(t) =>
      hide ParseStream;
      if st.dest.quote {
        QuotedGathered(st, t, k, trigger);
      } else {
        PlainGathered(st, t, k, trigger);
      }
    case Slash(ch) =>
      hide ParseStream;
      QuotedPair(st, ch, k, trigger);
      assert st.dest.data + ['\\'] + [ch] == st.dest.data + ['\\', ch];
    case Toggle =>
      assert (['"'] + k)[1..] == k && st.dest.data + "" == st.dest.data;
    case Single(t) => SingleRead(st, t, k, trigger);
    case _ => DollarRead(st, p, k, trigger);
  }

  lemma {:induction false} PiecesRead(st: ParseState, ps: seq<Piece>, k: string, trigger: bool) returns (o: OString)
    requires PiecesFit(ps, st.dest.quote) && EndsName(k)
    ensures o.data == st.dest.data + Data(ps, st.dest.quote) && !o.quote
    ensures ps != [] ==> o.data != "" || o.nonnull
    ensures st.dest.nonnull ==> o.nonnull
    ensures ParseStream(st, Spelled(ps) + k, trigger) == ParseStream(st.(dest := o), k, trigger)
    decreases |ps|
  {
    hide ParseStream;
    o := st.dest;
    if ps == [] {
      assert Spelled(ps) + k == k && o.data + "" == o.data;
    } else {
      var rest := Spelled(ps[1..]) + k;
      Cat(PieceText(ps[0]), Spelled(ps[1..]), k);
      PieceRead(st, ps[0], rest, trigger);
      var st1 := st.(dest := AfterPiece(st.dest, ps[0]));
      o := PiecesRead(st1, ps[1..], k, trigger);
      Cat(st.dest.data, PieceData(ps[0], st.dest.quote), Data(ps[1..], st1.dest.quote));
      PieceSeen(ps[0], st.dest);
    }
  }

  /** Every piece leaves something behind. */
  lemma PieceSeen(p: Piece, o: OString)
    requires PieceFits(p, o.quote)
    ensures AfterPiece(o, p).data != "" || AfterPiece(o, p).nonnull
  {
  }

  // ----- text that is refused -----

  /** A lone `&` or `|` is an error. */
  lemma LoneRefused(st: ParseState, k: string, trigger: bool)
    requires !st.dest.quote
    ensures k == "" || k[0] != '&' ==> ParseStream(st, "&" + k, trigger).SyntaxError?
    ensures k == "" || k[0] != '|' ==> ParseStream(st, "|" + k, trigger).SyntaxError?
  {
    assert ("&" + k)[1..] == k && ("|" + k)[1..] == k;
  }

  /** A quote or a brace without its mate is an error. */
  lemma OpenRefused(st: ParseState, k: string, trigger: bool)
    ensures '\'' !in k ==> ParseStream(st, "'" + k, trigger).SyntaxError?
    ensures '}' !in k ==> ParseStream(st, "${" + k, trigger).SyntaxError?
  {
    var q, b := "'" + k, "${" + k;
    assert q[1..] == k && b[1..][0] == '{' && b[1..][1..] == k;
    if '\'' !in k {
      FindNone(k, '\'');
      assert ParseChar(st, q, trigger).Leave?;
    }
    if '}' !in k {
      FindNone(k, '}');
      assert HandleDollar(st.dest, b[1..]).None?;
      hide HandleDollar;
      assert ParseChar(st, b, trigger).Leave?;
    }
  }

  /** A word behind a finished compound is an error. */
  lemma WordBehindRefused(st: ParseState, k: string, trigger: bool)
    requires !st.dest.quote && st.ctx.child.group.Some? && (st.dest.data != "" || st.dest.nonnull)
    ensures ParseStream(st, " " + k, trigger).SyntaxError?
  {
    assert (" " + k)[1..] == k;
  }

  // ----- layout: the text of tokens -----

  predicate Blanks(s: string) {
    forall i :: 0 <= i < |s| ==> s[i] == ' ' || s[i] == '\t'
  }

  /**
    How a token is written: an argument in pieces; the end of a unit as `;` or,
    behind a comment that may be empty, as a newline.
   */
  datatype Form = Plain | Pieces(ps: seq<Piece>) | NewLine(comment: string)

  /** How one token is laid out: the blanks before it and its form. */
  datatype Gap = Gap(lead: string, form: Form)

  function ArgText(w: string, form: Form): string {
    if form.Pieces? then Spelled(form.ps) else w
  }

  function SepText(form: Form): string {
    if form.NewLine? then form.comment + "\n" else ";"
  }

  function OperText(op: Op): string {
    if op.And? then "&&" else "||"
  }

  function TokenText(t: Token, form: Form): string {
    match t
    case Word(w) => w
    case Arg(w) => ArgText(w, form)
    case Sep(_) => SepText(form)
    case Oper(op) => OperText(op)
  }

  /** The text of a line; end is the layout of its newline. */
  function Text(ts: seq<Token>, gaps: seq<Gap>, end: Gap): string
    requires |ts| == |gaps|
  {
    if ts == [] then end.lead + SepText(end.form)
    else gaps[0].lead + (TokenText(ts[0], gaps[0].form) + Text(ts[1..], gaps[1..], end))
  }

  /**
    A layout that keeps the tokens apart: blanks between words, newlines only
    inside compounds and at the end, arguments in pieces where they are not plain.  joined
    says that a word stands directly in front.
   */
  predicate Layout(ts: seq<Token>, gaps: seq<Gap>, end: Gap, joined: bool) {
    && |ts| == |gaps|
    && if ts == [] then Blanks(end.lead) && end.form.NewLine? && CommentFits(end, joined)
       else
         && Blanks(gaps[0].lead) && Fits(ts[0], gaps[0], joined)
         && Layout(ts[1..], gaps[1..], end, ts[0].Word? || ts[0].Arg?)
  }

  predicate Fits(t: Token, g: Gap, joined: bool) {
    match t
    case Word(_) => joined ==> g.lead != ""
    case Arg(w) => (joined ==> g.lead != "") && ArgFits(w, g.form)
    case Sep(inner) => g.form.NewLine? ==> inner && CommentFits(g, joined)
    case Oper(_) => true
  }

  predicate ArgFits(w: string, form: Form) {
    if form.Pieces? then form.ps != [] && PiecesFit(form.ps, false) && Value(form.ps) == w else PlainWord(w)
  }

  /** A comment goes up to the newline and does not touch a word. */
  predicate CommentFits(g: Gap, joined: bool)
    requires g.form.NewLine?
  {
    var c := g.form.comment;
    c == "" || (c[0] == '#' && '\n' !in c && (joined ==> g.lead != ""))
  }

  /** The state with the gathered word finished. */
  function Settled(st: ParseState): ParseState {
    DoneWord(st).0
  }

  /** Blanks finish the gathered word, if any. */
  lemma {:induction false} BlanksSettle(st: ParseState, b: string, k: string, trigger: bool)
    requires Blanks(b) && !st.dest.quote && !DoneWord(st).1
    ensures ParseStream(st, b + k, trigger) == ParseStream(if b == "" then st else Settled(st), k, trigger)
    ensures !Settled(st).dest.quote && Quiet(Settled(st)) && DoneWord(Settled(st)) == (Settled(st), false)
    decreases |b|
  {
    if b == "" {
      assert b + k == k;
    } else {
      assert (b + k)[1..] == b[1..] + k;
      BlanksSettle(Settled(st), b[1..], k, trigger);
    }
  }

  lemma WordRead(st: ParseState, w: string, k: string, trigger: bool)
    requires Quiet(st) && PlainWord(w)
    ensures ParseStream(st, w + k, trigger) == ParseStream(st.(dest := OString(w, false, false)), k, trigger)
  {
    PlainGathered(st, w, k, trigger);
    assert st.dest.data + w == w;
  }

  /** One token of text; its word, if it is one, is left gathered. */
  lemma TokenRead(st: ParseState, t: Token, g: Gap, k: string) returns (st': ParseState)
    requires !st.dest.quote && !DoneWord(st).1 && Feed(Settled(st), t).Some?
    requires Blanks(g.lead) && Fits(t, g, !Quiet(st)) && (t.Arg? ==> EndsName(k))
    ensures !st'.dest.quote && DoneWord(st') == (Feed(Settled(st), t).value, false)
    ensures !Quiet(st') ==> t.Word? || t.Arg?
    ensures ParseStream(st, g.lead + (TokenText(t, g.form) + k), true) == ParseStream(st', k, true)
  {
    hide ParseStream, PiecesFit;
    BlanksSettle(st, g.lead, TokenText(t, g.form) + k, true);
    var st1 := if g.lead == "" then st else Settled(st);
    var next := Feed(Settled(st), t).value;
    match t
    case Word(w) =>
      assert Quiet(st1) && st1 == Settled(st);
      WordRead(st1, w, k, true);
      st' := st1.(dest := OString(w, false, false));
      assert DoneWord(st') == (next, false);
    case Arg(w) =>
      assert Quiet(st1) && st1 == Settled(st);
      st' := ArgRead(st1, w, g.form, k, true);
    case Sep(inner) =>
      SepRead(st1, g.form, k);
      st' := next;
      assert DoneWord(next) == (next, false);
    case Oper(op) =>
      OperRead(st1, op, k);
      st' := next;
      assert DoneWord(next) == (next, false);
  }

  /** Gathered text that is unescaped to w becomes the argument w. */
  lemma ArgDone(st: ParseState, w: string, data: string, quoted: bool)
    requires Quiet(st) && TakesArg(st, w) && Unescape(data) == w && (data != "" || quoted)
    requires w !in RESERVED ==> data !in RESERVED
    ensures DoneWord(st.(dest := OString(data, false, quoted))) == (AddArgs(st, [w]), false)
  {
    KeywordIff(data);
    hide KeywordOf, Unescape;
  }

  /** Escaping makes no keyword. */
  lemma EscapedKeyword(data: string)
    requires Unescape(data) !in RESERVED
    ensures data !in RESERVED
  {
    if data in RESERVED {
      KeywordPlain(data);
      PlainKept(data);
    }
  }

  lemma ArgRead(st: ParseState, w: string, form: Form, k: string, trigger: bool) returns (st': ParseState)
    requires Quiet(st) && TakesArg(st, w) && ArgFits(w, form) && EndsName(k)
    ensures !st'.dest.quote && DoneWord(st') == (AddArgs(st, [w]), false)
    ensures ParseStream(st, ArgText(w, form) + k, trigger) == ParseStream(st', k, trigger)
  {
    hide ParseStream, DoneWord;
    var o := OString(w, false, false);
    if form.Pieces? {
      o := PiecesRead(st, form.ps, k, trigger);
      assert "" + Data(form.ps, false) == Data(form.ps, false);
      DataUndone(form.ps, false);
    } else {
      WordRead(st, w, k, trigger);
      PlainKept(w);
    }
    st' := st.(dest := o);
    if w !in RESERVED {
      EscapedKeyword(o.data);
    }
    ArgDone(st, w, o.data, o.nonnull);
  }

  /** A double-quoted text in argument position becomes one argument equal to the text. */
  lemma QuotedIsOneWord(st: ParseState, text: string, k: string, trigger: bool)
    requires Quiet(st) && TakesArg(st, text) && Quotable(text)
    ensures ParseStream(st, ['"'] + text + ['"'] + ([' '] + k), trigger) == ParseStream(AddArgs(st, [text]), k, trigger)
  {
    var ps := if text == "" then [Toggle, Toggle] else [Toggle, Chars(text), Toggle];
    QuotedPieces(text);
    var st' := ArgRead(st, text, Pieces(ps), [' '] + k, trigger);
    assert ([' '] + k)[1..] == k;
  }

  lemma PieceFirst(p: Piece, ps: seq<Piece>, quote: bool)
    ensures Value([p] + ps) == PieceValue(p) + Value(ps) && Spelled([p] + ps) == PieceText(p) + Spelled(ps)
    ensures PiecesFit([p] + ps, quote)
        <==> PieceFits(p, quote) && PiecesFit(ps, QuoteAfter(p, quote)) && (p.Dollar? ==> EndsName(Spelled(ps)))
  {
    assert ([p] + ps)[1..] == ps;
  }

  lemma QuotedPieces(text: string)
    requires Quotable(text)
    ensures var ps := if text == "" then [Toggle, Toggle] else [Toggle, Chars(text), Toggle];
      PiecesFit(ps, false) && Value(ps) == text && Spelled(ps) == ['"'] + text + ['"']
  {
    PieceFirst(Toggle, [], true);
    assert Value([]) == "" && Spelled([]) == "" && PiecesFit([], false);
    hide Value, Spelled, PiecesFit, Quotable;
    if text == "" {
      PieceFirst(Toggle, [Toggle], false);
      assert [Toggle] + [Toggle] == [Toggle, Toggle];
    } else {
      PieceFirst(Chars(text), [Toggle], true);
      PieceFirst(Toggle, [Chars(text)] + [Toggle], false);
      assert [Toggle] + ([Chars(text)] + [Toggle]) == [Toggle, Chars(text), Toggle];
    }
  }

  /** A comment is passed over up to its newline. */
  lemma CommentRead(st: ParseState, c: string, k: string, trigger: bool)
    requires c == "" || (Quiet(st) && c[0] == '#' && '\n' !in c)
    ensures ParseStream(st, c + (['\n'] + k), trigger) == ParseStream(st, ['\n'] + k, trigger)
  {
    var inp := c + (['\n'] + k);
    if c == "" {
      assert inp == ['\n'] + k;
    } else {
      var rest := inp[1..];
      assert rest == c[1..] + (['\n'] + k);
      FindBehind(c[1..], '\n', k);
      assert rest[|c| - 1..] == ['\n'] + k;
      assert ParseChar(st, inp, trigger) == Go(st, ['\n'] + k);
    }
  }

  lemma SepRead(st: ParseState, form: Form, k: string)
    requires !st.dest.quote && !DoneWord(st).1
    requires form.NewLine? ==> Inner(Settled(st))
    requires form.NewLine? ==>
      form.comment == "" || (Quiet(st) && form.comment[0] == '#' && '\n' !in form.comment)
    ensures var st' := Settled(st);
      ParseStream(st, SepText(form) + k, true) == ParseStream(st'.(ctx := DonePipe(st'.ctx, PipeSeq)), k, true)
  {
    if form.NewLine? {
      assert SepText(form) + k == form.comment + (['\n'] + k);
      CommentRead(st, form.comment, k, true);
      assert (['\n'] + k)[1..] == k;
    } else {
      assert (SepText(form) + k)[1..] == k;
    }
  }

  lemma OperRead(st: ParseState, op: Op, k: string)
    requires !st.dest.quote
    ensures var st' := Settled(st);
      ParseStream(st, OperText(op) + k, true) == ParseStream(st'.(ctx := DonePipe(st'.ctx, StyleOf(op))), k, true)
  {
    var text := OperText(op) + k;
    assert text[1..][0] == text[1] && text[1..][1..] == k;
  }

  /** The newline of the line ends it. */
  lemma EndRead(st: ParseState, end: Gap)
    requires !st.dest.quote && !DoneWord(st).1 && !Inner(Settled(st))
    requires Blanks(end.lead) && end.form.NewLine? && CommentFits(end, !Quiet(st))
    ensures var st' := Settled(st);
      ParseStream(st, end.lead + SepText(end.form), true) == Triggered(st'.(ctx := DonePipe(st'.ctx, PipeSeq)), "")
  {
    BlanksSettle(st, end.lead, SepText(end.form), true);
    var st1 := if end.lead == "" then st else Settled(st);
    assert SepText(end.form) == end.form.comment + (['\n'] + "");
    CommentRead(st1, end.form.comment, "", true);
  }

  /** Any layout of the tokens of a line is parsed as the tokens. */
  lemma {:induction false} TextParsed(st: ParseState, ts: seq<Token>, gaps: seq<Gap>, end: Gap)
    requires !st.dest.quote && !DoneWord(st).1 && Layout(ts, gaps, end, !Quiet(st))
    requires ParseTokens(Settled(st), ts).Some? && !Inner(ParseTokens(Settled(st), ts).value)
    ensures var st' := ParseTokens(Settled(st), ts).value;
      ParseStream(st, Text(ts, gaps, end), true) == Triggered(st'.(ctx := DonePipe(st'.ctx, PipeSeq)), "")
    decreases |ts|
  {
    hide ParseStream, DoneWord, Feed, Fits;
    if ts == [] {
      EndRead(st, end);
    } else {
      var k := Text(ts[1..], gaps[1..], end);
      if ts[0].Arg? {
        NameEnded(ts[1..], gaps[1..], end);
      }
      var st' := TokenRead(st, ts[0], gaps[0], k);
      LayoutJoined(ts[1..], gaps[1..], end, ts[0].Word? || ts[0].Arg?, !Quiet(st'));
      TextParsed(st', ts[1..], gaps[1..], end);
    }
  }

  /** What stands behind a word ends a name. */
  lemma NameEnded(ts: seq<Token>, gaps: seq<Gap>, end: Gap)
    requires Layout(ts, gaps, end, true)
    ensures EndsName(Text(ts, gaps, end))
  {
  }

  lemma LayoutJoined(ts: seq<Token>, gaps: seq<Gap>, end: Gap, joined: bool, joined': bool)
    requires Layout(ts, gaps, end, joined) && (joined' ==> joined)
    ensures Layout(ts, gaps, end, joined')
  {
  }

  // ----- whole lines -----

  /** s with n empty units behind it. */
  function Closed(s: Script, n: nat): Script {
    if s.Then? then Then(s.unit, Closed(s.rest, n))
    else if n == 0 then Done
    else Then(Blank, Closed(Done, n - 1))
  }

  lemma {:induction false} ClosedFlat(s: Script, n: nat, m: ReservedStyle)
    ensures FlattenScript(Closed(s, n), m) == FlattenScript(s, m) + BlankPipes(n, m)
    decreases s, n
  {
    if s.Then? {
      ClosedFlat(s.rest, n, m);
    } else if n > 0 {
      ClosedFlat(Done, n - 1, m);
      assert [Pipe(m, PipeSeq, NoProg)] + BlankPipes(n - 1, m) == BlankPipes(n, m);
    }
  }

  lemma {:induction false} ClosedSame(env: Env, rule: Rule, s: Script, n: nat, h: History, st: int, fuel: nat)
    ensures EvalScript(env, rule, Closed(s, n), h, st, fuel) == EvalScript(env, rule, s, h, st, fuel)
    ensures WfScript(s) ==> WfScript(Closed(s, n))
    decreases s, n
  {
    match s
    case Done =>
      if n > 0 {
        ClosedSame(env, rule, Done, n - 1, h, st, fuel);
      }
    case Then(Blank, rest) => ClosedSame(env, rule, rest, n, h, st, fuel);
    case Then(AndOr(c, t), rest) =>
      ClosedSame(env, rule, rest, n, h, st, fuel);
      var r := EvalChain(env, rule, s.unit, h, fuel);
      if r.Finished? {
        ClosedSame(env, rule, rest, n, r.hist, r.code, fuel);
      }
  }

  /** The tokens of a script whose last unit is left open. */
  function OpenTokens(s: Script): seq<Token> {
    match s
    case Done => []
    case Then(Blank, rest) => if rest.Done? then [] else [Sep(false)] + OpenTokens(rest)
    case Then(AndOr(c, t), rest) =>
      CommandTokens(c, TailTokens(t, if rest.Done? then [] else [Sep(false)] + OpenTokens(rest)))
  }

  lemma {:induction false} OpenParsed(st: ParseState, s: Script) returns (st': ParseState)
    requires Idle(st) && !Inner(st) && WritableScript(s) && s.Then?
    ensures ParseTokens(st, OpenTokens(s)) == Some(st') && st'.ctx.mark == st.ctx.mark
    ensures st'.(ctx := DonePipe(st'.ctx, PipeSeq)) == Plus(st, FlattenScript(s, ResNone))
    decreases s
  {
    var rest, p := s.rest, FlattenUnit(s.unit, ResNone);
    assert FlattenScript(s, ResNone) == p + FlattenScript(rest, ResNone);
    var k := if rest.Done? then [] else [Sep(false)] + OpenTokens(rest);
    var st1 := st;
    assert ParseTokens(st1, []) == Some(st1);
    if s.unit.AndOr? {
      st1 := TailOpen(st, s.unit.first, s.unit.tail);
      assert ParseTokens(st1, []) == Some(st1);
      hide ParseTokens;
      CommandParsed(st, s.unit.first, TailTokens(s.unit.tail, k));
      TailParsed(st, s.unit.first, s.unit.tail, k);
      TailClosed(st, s.unit.first, s.unit.tail);
    }
    hide ParseTokens;
    if rest.Done? {
      st' := st1;
      assert p + [] == p;
    } else {
      SepParsed(st1, false, OpenTokens(rest));
      st' := OpenParsed(Plus(st, p), rest);
      PlusPlus(st, p, FlattenScript(rest, ResNone));
    }
  }

  /** The tokens of a command line: its last unit is closed by a `;` or by the newline alone. */
  function LineTokens(s: Script, semi: bool): seq<Token> {
    if semi then ScriptTokens(s, false, []) else OpenTokens(s)
  }

  /** The empty units that the newline and the end of the line leave. */
  function Extra(s: Script, semi: bool): nat {
    if semi || s.Done? then 2 else 1
  }

  const EMPTY := Pipe(ResNone, PipeSeq, NoProg)

  /** What parse_stream_outer makes of the state that the newline leaves. */
  lemma LineClosed(text: string, ps: seq<Pipe>)
    requires ParseStream(FRESH_STATE, text, true) == Triggered(Plus(FRESH_STATE, ps), "")
    ensures ParseLine(text) == Some(ps + [EMPTY] + [TRAILER])
  {
    hide ParseStream;
    assert [] + ps == ps;
  }

  /** The state that the newline leaves holds the pipes of the line. */
  lemma LineTokensParsed(s: Script, semi: bool) returns (st: ParseState)
    requires WritableScript(s)
    ensures ParseTokens(FRESH_STATE, LineTokens(s, semi)) == Some(st) && !Inner(st)
    ensures st.(ctx := DonePipe(st.ctx, PipeSeq))
            == Plus(FRESH_STATE, FlattenScript(s, ResNone) + BlankPipes(Extra(s, semi) - 1, ResNone))
  {
    var ps := FlattenScript(s, ResNone);
    if semi || s.Done? {
      ScriptParsed(FRESH_STATE, s, []);
      st := Plus(FRESH_STATE, ps);
      assert ParseTokens(st, []) == Some(st);
      assert BlankPipes(1, ResNone) == [EMPTY];
      PlusPlus(FRESH_STATE, ps, [EMPTY]);
    } else {
      st := OpenParsed(FRESH_STATE, s);
      assert ps + BlankPipes(0, ResNone) == ps;
    }
  }

  /** Parsing any layout of a script's tokens gives its flattened pipe list. */
  lemma LineParsed(s: Script, semi: bool, gaps: seq<Gap>, end: Gap)
    requires WritableScript(s) && Layout(LineTokens(s, semi), gaps, end, false)
    ensures ParseLine(Text(LineTokens(s, semi), gaps, end)) == Some(FlattenLine(Closed(s, Extra(s, semi))))
  {
    hide ParseTokens, ParseStream, ParseLine, LineTokens, Text;
    var n, ps := Extra(s, semi), FlattenScript(s, ResNone);
    var st := LineTokensParsed(s, semi);
    assert DoneWord(FRESH_STATE) == (FRESH_STATE, false);
    TextParsed(FRESH_STATE, LineTokens(s, semi), gaps, end);
    LineClosed(Text(LineTokens(s, semi), gaps, end), ps + BlankPipes(n - 1, ResNone));
    ClosedFlat(s, n, ResNone);
    assert BlankPipes(n - 1, ResNone) + [EMPTY] == BlankPipes(n, ResNone);
    assert ps + BlankPipes(n - 1, ResNone) + [EMPTY] == ps + BlankPipes(n, ResNone);
  }

  lemma FirstWord(st: ParseState, w: string, k: string)
    requires Quiet(st) && PlainWord(w)
    ensures ParseStream(st, w + ([' '] + k), true)
         == (var (st', err) := DoneWord(st.(dest := OString(w, false, false)));
             if err then SyntaxError(st') else ParseStream(st', k, true))
  {
    WordRead(st, w, [' '] + k, true);
    assert ([' '] + k)[1..] == k;
  }

  /** `w & ...` is refused. */
  lemma LoneLineRefused(w: string, k: string)
    requires PlainWord(w) && w !in RESERVED && (k == "" || k[0] != '&')
    ensures ParseLine(w + ([' '] + ("&" + k))) == None
  {
    FirstWord(FRESH_STATE, w, "&" + k);
    KeywordIff(w);
    LoneRefused(DoneWord(FRESH_STATE.(dest := OString(w, false, false))).0, k, true);
  }

  /** In the condition of an `if`. */
  const IN_IF := FRESH_STATE.(ctx := Context(Mark(ResIf, FollowUps(ResIf)), [], NO_CHILD), stack := [FRESH_CONTEXT])

  lemma IfRead(k: string)
    ensures ParseStream(FRESH_STATE, "if" + ([' '] + k), true) == ParseStream(IN_IF, k, true)
  {
    hide ParseStream;
    FirstWord(FRESH_STATE, "if", k);
    assert [FRESH_CONTEXT] + [] == [FRESH_CONTEXT];
    assert DoneWord(FRESH_STATE.(dest := OString("if", false, false))) == (IN_IF, false);
  }

  lemma SemicolonRead(st: ParseState)
    requires Quiet(st)
    ensures ParseStream(st, ";", true) == EndOfInput(st.(ctx := DonePipe(st.ctx, PipeSeq)))
  {
    assert ParseChar(st, ";", true) == Go(st.(ctx := DonePipe(st.ctx, PipeSeq)), "");
  }

  /** `if w;` without the rest of the compound is refused. */
  lemma OpenLineRefused(w: string)
    requires PlainWord(w) && w !in RESERVED
    ensures ParseLine("if" + ([' '] + (w + ([' '] + ";")))) == None
  {
    hide ParseStream;
    IfRead(w + ([' '] + ";"));
    FirstWord(IN_IF, w, ";");
    KeywordIff(w);
    hide KeywordOf;
    var st := DoneWord(IN_IF.(dest := OString(w, false, false))).0;
    assert Quiet(st) && st.ctx.mark.oldFlag != {};
    SemicolonRead(st);
  }

  /**
    From the characters of a command line, however it is laid out, to the commands
    it runs: the history and outcome of the script with POSIX chains, and the POSIX
    meaning where no differing status is read.
   */
  lemma LineMeans(env: Env, s: Script, semi: bool, gaps: seq<Gap>, end: Gap, h: History, fuel: nat)
    requires WritableScript(s) && Layout(LineTokens(s, semi), gaps, end, false)
    requires WfScript(s) && PureScript(s)
    ensures var list := ParseLine(Text(LineTokens(s, semi), gaps, end));
      && list.Some?
      && RunList(env, list.value, h, fuel) == EvalScript(env, LastRun, s, h, 0, fuel)
      && forall read :: SafeScript(s, read) ==>
           Alike(read, EvalScript(env, Posix, s, h, 0, fuel), RunList(env, list.value, h, fuel))
  {
    var n := Extra(s, semi);
    LineParsed(s, semi, gaps, end);
    ClosedSame(env, Abandon, s, n, h, 0, fuel);
    LineRuns(env, Closed(s, n), h, fuel);
    ScriptAgrees(env, s, h, 0, fuel);
    hide RunList, ParseLine;
    forall read | SafeScript(s, read)
      ensures Alike(read, EvalScript(env, Posix, s, h, 0, fuel), EvalScript(env, LastRun, s, h, 0, fuel))
    {
      ScriptAlike(env, s, read, h, 0, 0, fuel);
    }
  }
}
