/**
  parse_stream of cli_hush.c and what it calls: characters are gathered into
  words, words into commands, commands into tagged pipes; keywords push and pop
  contexts.
 */
module HushParser {
  import opened Options
  import opened Strings
  import opened HushSyntax
  import opened HushKeywords

  /** The open child_prog of a context. */
  datatype Child = Child(argv: seq<string>, group: Option<seq<Pipe>>)

  const NO_CHILD := Child([], None)

  /** struct p_context: keyword state, finished pipes, open child. */
  datatype Context = Context(mark: Mark, pipes: seq<Pipe>, child: Child)

  /** o_string: the word being gathered. */
  datatype OString = OString(data: string, quote: bool, nonnull: bool)

  datatype ParseState = ParseState(ctx: Context, stack: seq<Context>, dest: OString)

  const FRESH_CONTEXT := Context(FRESH, [], NO_CHILD)
  const FRESH_STATE := ParseState(FRESH_CONTEXT, [], OString("", false, false))

  // ----- words -----

  function KeywordOf(word: string): Option<ReservedStyle> {
    if word == "if" then Some(ResIf)
    else if word == "then" then Some(ResThen)
    else if word == "elif" then Some(ResElif)
    else if word == "else" then Some(ResElse)
    else if word == "fi" then Some(ResFi)
    else if word == "for" then Some(ResFor)
    else if word == "while" then Some(ResWhile)
    else if word == "until" then Some(ResUntil)
    else if word == "in" then Some(ResIn)
    else if word == "do" then Some(ResDo)
    else if word == "done" then Some(ResDone)
    else None
  }

  /** b_addqchr: inside double quotes, four characters are kept behind a backslash. */
  predicate NeedsEscape(ch: char) {
    ch == '*' || ch == '?' || ch == '[' || ch == '\\'
  }

  function AddQ(o: OString, ch: char): OString {
    o.(data := o.data + if o.quote && NeedsEscape(ch) then ['\\', ch] else [ch])
  }

  /** Only inside double quotes, and only for `*`, `?`, `[` and the backslash, a backslash goes in front. */
  lemma EscapeAdds(o: OString, ch: char)
    ensures AddQ(o, ch) == o.(data := o.data + if o.quote && ch in "*?[\\" then ['\\', ch] else [ch])
  {
  }

  function Reset(o: OString): OString {
    o.(data := "", nonnull := false)
  }

  /** done_word's copy: a backslash gives way to the character behind it. */
  function Unescape(s: string): string {
    if s == "" then ""
    else if s[0] != '\\' then [s[0]] + Unescape(s[1..])
    else if |s| == 1 then ""
    else [s[1]] + Unescape(s[2..])
  }

  // ----- commands and pipes -----

  function ProgOfChild(c: Child): Prog {
    if c.group.Some? then Group(c.group.value)
    else if c.argv != [] then Words(c.argv)
    else NoProg
  }

  function DonePipe(c: Context, style: PipeStyle): Context {
    c.(pipes := c.pipes + [Pipe(c.mark.w, style, ProgOfChild(c.child))], child := NO_CHILD)
  }

  /** reserved_word for a word that is keyword code; the flag says whether it is a syntax error. */
  function ReservedWord(st: ParseState, code: ReservedStyle): (ParseState, bool)
    requires IsKeyword(code)
  {
    var c := st.ctx;
    var st := st.(dest := Reset(st.dest));
    var failed := (st.(ctx := c.(mark := c.mark.(w := ResSntx))), true);
    var mark := Mark(code, FollowUps(code));
    if ResXxxx in FollowUps(code) then
      if c.mark.w.ResIn? || c.mark.w.ResFor? then failed
      else (st.(ctx := Context(mark, [], NO_CHILD), stack := [c] + st.stack), false)
    else if c.mark.w.ResNone? || code !in c.mark.oldFlag then failed
    else if ResNone !in FollowUps(code) then (st.(ctx := c.(mark := mark)), false)
    else if st.stack == [] then failed
    else
      var list := DonePipe(c.(mark := mark), PipeSeq).pipes + [TRAILER];
      var saved := st.stack[0];
      (st.(ctx := saved.(child := saved.child.(group := Some(list))), stack := st.stack[1..]), false)
  }

  /** done_word; behind any keyword it fails if the context, which a pop may have restored, is in error. */
  function DoneWord(st: ParseState): (ParseState, bool) {
    var c := st.ctx;
    if st.dest.data == "" && !st.dest.nonnull then (st, false)
    else if c.child.group.Some? then (st, true)
    else if c.child.argv == [] && KeywordOf(st.dest.data).Some? then
      var (st', _) := ReservedWord(st, KeywordOf(st.dest.data).value);
      (st', st'.ctx.mark.w.ResSntx?)
    else
      var c := c.(child := c.child.(argv := c.child.argv + [Unescape(st.dest.data)]));
      (st.(ctx := if c.mark.w.ResFor? then DonePipe(c, PipeSeq) else c, dest := Reset(st.dest)), false)
  }

  // ----- characters -----

  /** map[]: 0 flows through, 1 and 2 flow through if quoted, 2 separates words. */
  function Class(ch: char): nat {
    if ch == SUBSTED || ch == '\\' || ch == '$' || ch == '\'' || ch == '"' then 3
    else if ch == ' ' || ch == '\t' || ch == '\n' then 2
    else if ch == ';' || ch == '&' || ch == '|' || ch == '#' then 1
    else 0
  }

  predicate IsNameChar(ch: char) { IsAlpha(ch) || '0' <= ch <= '9' || ch == '_' }

  function NameSpan(s: string): (n: nat)
    ensures n <= |s|
  {
    if s == "" || !IsNameChar(s[0]) then 0 else 1 + NameSpan(s[1..])
  }

  function AddAll(o: OString, s: string): OString {
    o.(data := o.data + s)
  }

  /** handle_dollar on the input behind the `$`: the new word and the rest; None is a syntax error. */
  function HandleDollar(o: OString, inp: string): (r: Option<(OString, string)>)
    ensures r.Some? ==> |r.value.1| <= |inp|
  {
    if inp != "" && IsAlpha(inp[0]) then
      var n := NameSpan(inp);
      Some((AddAll(o, [MARKER] + inp[..n] + [MARKER]), inp[n..]))
    else if inp != "" && inp[0] == '?' then
      Some((AddAll(o, [MARKER, '$', '?', MARKER]), inp[1..]))
    else if inp != "" && inp[0] == '{' then
      var n := Find(inp[1..], '}');
      if n == |inp| - 1 then None
      else Some((AddAll(o, [MARKER] + inp[1..n + 1] + [MARKER]), inp[n + 2..]))
    else Some((AddQ(o, '$'), inp))
  }

  /** parse_stream's return: 0 at the end trigger, 1 on a syntax error, -1 at the end of input. */
  datatype ParseResult =
    | Triggered(st: ParseState, rest: string)
    | SyntaxError(st: ParseState)
    | EndOfInput(st: ParseState)

  /** What one round of parse_stream's loop does. */
  datatype Round = Go(st: ParseState, rest: string) | Leave(r: ParseResult)

  function ParseChar(st: ParseState, inp: string, trigger: bool): (r: Round)
    requires inp != ""
    ensures r.Go? ==> |r.rest| < |inp|
  {
    var ch, rest := inp[0], inp[1..];
    var m, o := Class(ch), st.dest;
    if m == 0 || (m != 3 && o.quote) then Go(st.(dest := AddQ(o, ch)), rest)
    else if m == 2 then
      var (st, err) := DoneWord(st);
      if err then Leave(SyntaxError(st))
      else if ch != '\n' then Go(st, rest)
      else
        var st := st.(ctx := DonePipe(st.ctx, PipeSeq));
        if trigger && st.ctx.mark.w.ResNone? then Leave(Triggered(st, rest)) else Go(st, rest)
    else match ch
      case '#' =>
        if o.data == "" then Go(st, rest[Find(rest, '\n')..]) else Go(st.(dest := AddQ(o, ch)), rest)
      case '\\' =>
        if rest == "" then Leave(SyntaxError(st))
        else Go(st.(dest := AddQ(AddQ(o, '\\'), rest[0])), rest[1..])
      case '$' =>
        var r := HandleDollar(o, rest);
        if r.None? then Leave(SyntaxError(st)) else Go(st.(dest := r.value.0), r.value.1)
      case '"' => Go(st.(dest := o.(quote := !o.quote, nonnull := true)), rest)
      case ';' => Separate(st, PipeSeq, rest)
      case '&' => if rest != "" && rest[0] == '&' then Separate(st, PipeAnd, rest[1..])
          else Leave(SyntaxError(DoneWord(st).0))
      case '|' => if rest != "" && rest[0] == '|' then Separate(st, PipeOr, rest[1..])
          else Leave(SyntaxError(DoneWord(st).0))
      case _ =>  // a single quote or the marker of substituted text: verbatim up to its mate
        var n := Find(rest, ch);
        var st := st.(dest := AddAll(o.(nonnull := true), rest[..n]));
        if n == |rest| then Leave(SyntaxError(st)) else Go(st, rest[n + 1..])
  }

  /** A command separator ends the word (its error is not looked at here) and the pipe. */
  function Separate(st: ParseState, style: PipeStyle, rest: string): Round {
    var st := DoneWord(st).0;
    Go(st.(ctx := DonePipe(st.ctx, style)), rest)
  }

  function ParseStream(st: ParseState, inp: string, trigger: bool): ParseResult
    decreases |inp|
  {
    if inp == "" then EndOfInput(st)
    else
      match ParseChar(st, inp, trigger)
      case Go(st, rest) => ParseStream(st, rest, trigger)
      case Leave(r) => r
  }

  /** parse_stream_outer on one line: the pipe list to run; None if the line is refused. */
  function ParseLine(inp: string): Option<seq<Pipe>> {
    var r := ParseStream(FRESH_STATE, inp, true);
    if r.SyntaxError? || r.st.ctx.mark.oldFlag != {} then None
    else Some(DonePipe(DoneWord(r.st).0.ctx, PipeSeq).pipes + [TRAILER])
  }

  /** The keyword state of a parser is a configuration of the keyword automaton. */
  ghost function ConfigOf(st: ParseState): Config {
    Config(st.ctx.mark, seq(|st.stack|, i requires 0 <= i < |st.stack| => st.stack[i].mark))
  }

  /** reserved_word moves the parser as the automaton moves, and fails where it fails. */
  lemma ReservedWordIsStep(st: ParseState, code: ReservedStyle)
    requires IsKeyword(code)
    ensures var (st', err) := ReservedWord(st, code);
      var r := KeywordStep(ConfigOf(st), code);
      err == r.None? && (r.Some? ==> ConfigOf(st') == r.value)
  {
    var (st', err) := ReservedWord(st, code);
    var r := KeywordStep(ConfigOf(st), code);
    if r.Some? {
      assert ConfigOf(st').stack == r.value.stack;
    }
  }

  /** A word that reserved_word refuses is an error of done_word, and so is a pop into a context in error. */
  lemma KeywordErrors(st: ParseState)
    requires st.ctx.child == NO_CHILD && KeywordOf(st.dest.data).Some? && !st.ctx.mark.w.ResSntx?
    ensures var code := KeywordOf(st.dest.data).value;
      DoneWord(st).1 <==>
        || ReservedWord(st, code).1
        || (ResNone in FollowUps(code) && st.stack != [] && st.stack[0].mark.w.ResSntx?)
  {
  }
}
