/**
  The keyword automaton of reserved_word: a table of accepted follow-up words
  and a stack of saved contexts.  It accepts exactly the words of the nested
  if / for / while / until grammar.
 */
module HushKeywords {
  import opened Options
  import opened HushSyntax

  /** A row of reserved_list; ResNone stands for FLAG_END, ResXxxx for FLAG_START. */
  function FollowUps(code: ReservedStyle): set<ReservedStyle> {
    match code
    case ResIf => {ResThen, ResXxxx}
    case ResThen => {ResElif, ResElse, ResFi}
    case ResElif => {ResThen}
    case ResElse => {ResFi}
    case ResFi => {ResNone}
    case ResFor => {ResIn, ResXxxx}
    case ResWhile => {ResDo, ResXxxx}
    case ResUntil => {ResDo, ResXxxx}
    case ResIn => {ResDo}
    case ResDo => {ResDone}
    case ResDone => {ResNone}
    case _ => {}
  }

  predicate IsKeyword(code: ReservedStyle) {
    FollowUps(code) != {}
  }

  /** The part of a parse context that decides which keywords may come: w and old_flag. */
  datatype Mark = Mark(w: ReservedStyle, oldFlag: set<ReservedStyle>)

  const FRESH := Mark(ResNone, {})

  /** The current context and the saved ones, innermost first. */
  datatype Config = Config(top: Mark, stack: seq<Mark>)

  const START := Config(FRESH, [])

  /** reserved_word on keyword code; None is a syntax error. */
  function KeywordStep(c: Config, code: ReservedStyle): Option<Config>
    requires IsKeyword(code)
  {
    var next := Mark(code, FollowUps(code));
    if ResXxxx in FollowUps(code) then
      if c.top.w.ResIn? || c.top.w.ResFor? then None
      else Some(Config(next, [c.top] + c.stack))
    else if c.top.w.ResNone? || code !in c.top.oldFlag then None
    else if ResNone in FollowUps(code) then
      if c.stack == [] then None else Some(Config(c.stack[0], c.stack[1..]))
    else Some(Config(next, c.stack))
  }

  function KeywordRun(c: Config, ws: seq<ReservedStyle>): Option<Config>
    requires forall w :: w in ws ==> IsKeyword(w)
    decreases |ws|
  {
    if ws == [] then Some(c)
    else
      var r := KeywordStep(c, ws[0]);
      if r.None? then None else KeywordRun(r.value, ws[1..])
  }

  /** parse_stream_outer goes on to run the line only if old_flag is 0. */
  predicate Accepted(ws: seq<ReservedStyle>) {
    && (forall w :: w in ws ==> IsKeyword(w))
    && KeywordRun(START, ws).Some? && KeywordRun(START, ws).value.top.oldFlag == {}
  }

  // ----- reachable contexts -----

  ghost predicate Sound(c: Config)
    decreases |c.stack|
  {
    if c.stack == [] then c.top == FRESH
    else
      && IsKeyword(c.top.w) && c.top.oldFlag == FollowUps(c.top.w) && ResNone !in c.top.oldFlag
      && !c.stack[0].w.ResIn? && !c.stack[0].w.ResFor?
      && Sound(Config(c.stack[0], c.stack[1..]))
  }

  /** Every reachable context: old_flag is 0 exactly when nothing is open. */
  lemma {:induction false} OpenIffFlagged(c: Config, ws: seq<ReservedStyle>)
    requires Sound(c) && forall w :: w in ws ==> IsKeyword(w)
    ensures var r := KeywordRun(c, ws);
      r.Some? ==> Sound(r.value) && (r.value.top.oldFlag == {} <==> r.value.stack == [])
    decreases |ws|
  {
    if ws != [] {
      var r := KeywordStep(c, ws[0]);
      if r.Some? {
        if ResXxxx in FollowUps(ws[0]) {
          assert [c.top] + c.stack == r.value.stack && r.value.stack[1..] == c.stack;
        }
        OpenIffFlagged(r.value, ws[1..]);
      }
    }
  }

  // ----- the grammar -----

  datatype Forest = Leaf | Branch(tree: Tree, rest: Forest)

  datatype Tree =
    | IfTree(cond: Forest, body: Forest, more: MoreTree)
    | LoopTree(until: bool, cond: Forest, body: Forest)
    | ForTree(body: Forest)

  datatype MoreTree = FiTree | ElseTree(els: Forest) | ElifTree(cond: Forest, body: Forest, more: MoreTree)

  /** The keywords of a forest, followed by k. */
  function ForestWords(f: Forest, k: seq<ReservedStyle>): seq<ReservedStyle> {
    if f.Leaf? then k else TreeWords(f.tree, ForestWords(f.rest, k))
  }

  function TreeWords(t: Tree, k: seq<ReservedStyle>): seq<ReservedStyle> {
    match t
    case IfTree(cond, body, more) =>
      [ResIf] + ForestWords(cond, [ResThen] + ForestWords(body, MoreWords(more, k)))
    case LoopTree(until, cond, body) =>
      [LoopMode(until)] + ForestWords(cond, [ResDo] + ForestWords(body, [ResDone] + k))
    case ForTree(body) => [ResFor] + ([ResIn] + ([ResDo] + ForestWords(body, [ResDone] + k)))
  }

  function MoreWords(m: MoreTree, k: seq<ReservedStyle>): seq<ReservedStyle> {
    match m
    case FiTree => [ResFi] + k
    case ElseTree(els) => [ResElse] + ForestWords(els, [ResFi] + k)
    case ElifTree(cond, body, more) =>
      [ResElif] + ForestWords(cond, [ResThen] + ForestWords(body, MoreWords(more, k)))
  }

  ghost predicate AllKeywords(ws: seq<ReservedStyle>) {
    forall w :: w in ws ==> IsKeyword(w)
  }

  /** Runs from c through ws to what k makes of c'. */
  ghost predicate Reaches(c: Config, ws: seq<ReservedStyle>, c': Config, k: seq<ReservedStyle>) {
    AllKeywords(ws) && AllKeywords(k) && KeywordRun(c, ws) == KeywordRun(c', k)
  }

  lemma StepReaches(c: Config, code: ReservedStyle, k: seq<ReservedStyle>)
    requires IsKeyword(code) && AllKeywords(k) && KeywordStep(c, code).Some?
    ensures Reaches(c, [code] + k, KeywordStep(c, code).value, k)
  {
    assert ([code] + k)[1..] == k;
  }

  function In(w: ReservedStyle, below: Config): Config {
    Config(Mark(w, FollowUps(w)), [below.top] + below.stack)
  }

  predicate Nests(c: Config) { !c.top.w.ResIn? && !c.top.w.ResFor? }

  lemma PopIn(w: ReservedStyle, c: Config)
    ensures Config(In(w, c).stack[0], In(w, c).stack[1..]) == c
  {
    assert ([c.top] + c.stack)[1..] == c.stack;
  }

  lemma {:induction false} ForestAccepted(f: Forest, c: Config, k: seq<ReservedStyle>)
    requires Nests(c) && AllKeywords(k)
    ensures Reaches(c, ForestWords(f, k), c, k)
    decreases f, 0
  {
    if f.Branch? {
      ForestAccepted(f.rest, c, k);
      TreeAccepted(f.tree, c, ForestWords(f.rest, k));
    }
  }

  lemma {:induction false} TreeAccepted(t: Tree, c: Config, k: seq<ReservedStyle>)
    requires Nests(c) && AllKeywords(k)
    ensures Reaches(c, TreeWords(t, k), c, k)
    decreases t
  {
    match t
    case IfTree(cond, body, more) =>
      MoreAccepted(more, c, k);
      ForestAccepted(body, In(ResThen, c), MoreWords(more, k));
      ForestAccepted(cond, In(ResIf, c), [ResThen] + ForestWords(body, MoreWords(more, k)));
      ThenAccepted(cond, body, more, ResIf, c, k);
      StepReaches(c, ResIf, ForestWords(cond, [ResThen] + ForestWords(body, MoreWords(more, k))));
    case LoopTree(until, cond, body) =>
      var w := LoopMode(until);
      DoAccepted(body, w, c, k);
      ForestAccepted(cond, In(w, c), [ResDo] + ForestWords(body, [ResDone] + k));
      StepReaches(c, w, ForestWords(cond, [ResDo] + ForestWords(body, [ResDone] + k)));
    case ForTree(body) =>
      var k' := [ResDo] + ForestWords(body, [ResDone] + k);
      DoAccepted(body, ResIn, c, k);
      StepReaches(In(ResFor, c), ResIn, k');
      StepReaches(c, ResFor, [ResIn] + k');
  }

  lemma {:induction false} DoAccepted(body: Forest, w: ReservedStyle, c: Config, k: seq<ReservedStyle>)
    requires AllKeywords(k) && ResDo in FollowUps(w)
    ensures Reaches(In(w, c), [ResDo] + ForestWords(body, [ResDone] + k), c, k)
    decreases body, 1
  {
    PopIn(ResDo, c);
    StepReaches(In(ResDo, c), ResDone, k);
    ForestAccepted(body, In(ResDo, c), [ResDone] + k);
    StepReaches(In(w, c), ResDo, ForestWords(body, [ResDone] + k));
  }

  /** `then` and what follows, once the condition, the body and the rest are known to be accepted. */
  lemma ThenAccepted(cond: Forest, body: Forest, more: MoreTree, w: ReservedStyle, c: Config, k: seq<ReservedStyle>)
    requires AllKeywords(k) && (w.ResIf? || w.ResElif?)
    requires Reaches(In(ResThen, c), MoreWords(more, k), c, k)
    requires Reaches(In(ResThen, c), ForestWords(body, MoreWords(more, k)), In(ResThen, c), MoreWords(more, k))
    requires var k' := [ResThen] + ForestWords(body, MoreWords(more, k));
      AllKeywords(k') ==> Reaches(In(w, c), ForestWords(cond, k'), In(w, c), k')
    ensures Reaches(In(w, c), ForestWords(cond, [ResThen] + ForestWords(body, MoreWords(more, k))), c, k)
  {
    StepReaches(In(w, c), ResThen, ForestWords(body, MoreWords(more, k)));
  }

  lemma {:induction false} MoreAccepted(m: MoreTree, c: Config, k: seq<ReservedStyle>)
    requires AllKeywords(k)
    ensures Reaches(In(ResThen, c), MoreWords(m, k), c, k)
    decreases m
  {
    match m
    case FiTree =>
      PopIn(ResThen, c);
      StepReaches(In(ResThen, c), ResFi, k);
    case ElseTree(els) =>
      PopIn(ResElse, c);
      StepReaches(In(ResElse, c), ResFi, k);
      ForestAccepted(els, In(ResElse, c), [ResFi] + k);
      StepReaches(In(ResThen, c), ResElse, ForestWords(els, [ResFi] + k));
    case ElifTree(cond, body, more) =>
      MoreAccepted(more, c, k);
      ForestAccepted(body, In(ResThen, c), MoreWords(more, k));
      ForestAccepted(cond, In(ResElif, c), [ResThen] + ForestWords(body, MoreWords(more, k)));
      ThenAccepted(cond, body, more, ResElif, c, k);
      StepReaches(In(ResThen, c), ResElif, ForestWords(cond, [ResThen] + ForestWords(body, MoreWords(more, k))));
  }

  // ----- the other direction: a tree for every accepted sequence -----

  /** What is still missing in one open context. */
  datatype Closing =
    | ToThen(rest: Forest, body: Forest, more: MoreTree)
    | ToFi(rest: Forest, more: MoreTree)
    | ToEnd(rest: Forest)
    | ToDo(rest: Forest, body: Forest)
    | ToIn(body: Forest)
    | ToListDo(body: Forest)

  /** A way to complete all open contexts, innermost first. */
  datatype Completion = Base(last: Forest) | Close(first: Closing, rest: Completion)

  predicate Fits(w: ReservedStyle, c: Closing) {
    match w
    case ResIf => c.ToThen?
    case ResElif => c.ToThen?
    case ResThen => c.ToFi?
    case ResElse => c.ToEnd?
    case ResDo => c.ToEnd?
    case ResWhile => c.ToDo?
    case ResUntil => c.ToDo?
    case ResFor => c.ToIn?
    case ResIn => c.ToListDo?
    case _ => false
  }

  ghost predicate Completes(c: Config, p: Completion)
    decreases |c.stack|
  {
    if c.stack == [] then p.Base?
    else p.Close? && Fits(c.top.w, p.first) && Completes(Config(c.stack[0], c.stack[1..]), p.rest)
  }

  function ClosingWords(w: ReservedStyle, c: Closing, k: seq<ReservedStyle>): seq<ReservedStyle> {
    match c
    case ToThen(rest, body, more) => ForestWords(rest, [ResThen] + ForestWords(body, MoreWords(more, k)))
    case ToFi(rest, more) => ForestWords(rest, MoreWords(more, k))
    case ToEnd(rest) => ForestWords(rest, [if w.ResElse? then ResFi else ResDone] + k)
    case ToDo(rest, body) => ForestWords(rest, [ResDo] + ForestWords(body, [ResDone] + k))
    case ToIn(body) => [ResIn] + ([ResDo] + ForestWords(body, [ResDone] + k))
    case ToListDo(body) => [ResDo] + ForestWords(body, [ResDone] + k)
  }

  ghost function CompletionWords(c: Config, p: Completion): seq<ReservedStyle>
    requires Completes(c, p)
    decreases |c.stack|
  {
    if c.stack == [] then ForestWords(p.last, [])
    else ClosingWords(c.top.w, p.first, CompletionWords(Config(c.stack[0], c.stack[1..]), p.rest))
  }

  /** Puts a finished construct in front of what the innermost context still needs. */
  function Prepend(t: Tree, p: Completion): Completion {
    match p
    case Base(f) => Base(Branch(t, f))
    case Close(ToThen(f, b, m), r) => Close(ToThen(Branch(t, f), b, m), r)
    case Close(ToFi(f, m), r) => Close(ToFi(Branch(t, f), m), r)
    case Close(ToEnd(f), r) => Close(ToEnd(Branch(t, f)), r)
    case Close(ToDo(f, b), r) => Close(ToDo(Branch(t, f), b), r)
    case _ => p
  }

  lemma PrependWords(t: Tree, c: Config, p: Completion)
    requires Sound(c) && Nests(c) && Completes(c, p)
    ensures Completes(c, Prepend(t, p))
    ensures CompletionWords(c, Prepend(t, p)) == TreeWords(t, CompletionWords(c, p))
  {
  }

  /** The construct that keyword w opens, if first is what it still needs. */
  function Opened(w: ReservedStyle, first: Closing): Tree
    requires Fits(w, first) && ResXxxx in FollowUps(w)
  {
    match first
    case ToThen(f, b, m) => IfTree(f, b, m)
    case ToDo(f, b) => LoopTree(w.ResUntil?, f, b)
    case ToIn(b) => ForTree(b)
  }

  /** A completion behind a keyword gives one in front of it. */
  lemma StepBack(c: Config, code: ReservedStyle, p: Completion) returns (q: Completion)
    requires Sound(c) && IsKeyword(code) && KeywordStep(c, code).Some?
    requires Completes(KeywordStep(c, code).value, p)
    ensures Completes(c, q) && CompletionWords(c, q) == [code] + CompletionWords(KeywordStep(c, code).value, p)
  {
    var c' := KeywordStep(c, code).value;
    if ResXxxx in FollowUps(code) {
      assert c'.stack[0] == c.top && c'.stack[1..] == c.stack;
      assert Config(c'.stack[0], c'.stack[1..]) == c;
      var t := Opened(code, p.first);
      PrependWords(t, c, p.rest);
      q := Prepend(t, p.rest);
    } else {
      match code {
        case ResThen => q := Close(ToThen(Leaf, p.first.rest, p.first.more), p.rest);
        case ResElif => q := Close(ToFi(Leaf, ElifTree(p.first.rest, p.first.body, p.first.more)), p.rest);
        case ResElse => q := Close(ToFi(Leaf, ElseTree(p.first.rest)), p.rest);
        case ResFi => q := Close(if c.top.w.ResThen? then ToFi(Leaf, FiTree) else ToEnd(Leaf), p);
        case ResIn => q := Close(ToIn(p.first.body), p.rest);
        case ResDo => q := Close(if c.top.w.ResIn? then ToListDo(p.first.rest) else ToDo(Leaf, p.first.rest), p.rest);
        case ResDone => q := Close(ToEnd(Leaf), p);
      }
    }
  }

  lemma {:induction false} CompletionExists(c: Config, ws: seq<ReservedStyle>) returns (p: Completion)
    requires Sound(c) && AllKeywords(ws)
    requires KeywordRun(c, ws).Some? && KeywordRun(c, ws).value.top.oldFlag == {}
    ensures Completes(c, p) && CompletionWords(c, p) == ws
    decreases |ws|
  {
    if ws == [] {
      p := Base(Leaf);
    } else {
      assert AllKeywords([ws[0]]);
      OpenIffFlagged(c, [ws[0]]);
      var c' := KeywordStep(c, ws[0]).value;
      assert KeywordRun(c, [ws[0]]) == Some(c');
      p := CompletionExists(c', ws[1..]);
      p := StepBack(c, ws[0], p);
    }
  }

  /** The automaton accepts a sequence of keywords iff the grammar derives it. */
  lemma AcceptedIffDerivable(ws: seq<ReservedStyle>)
    ensures Accepted(ws) <==> exists f: Forest :: ws == ForestWords(f, [])
  {
    if Accepted(ws) {
      var p := CompletionExists(START, ws);
      assert ws == ForestWords(p.last, []);
    }
    if f: Forest :| ws == ForestWords(f, []) {
      ForestAccepted(f, START, []);
    }
  }
}
