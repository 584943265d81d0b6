/**
  The parser of cli_hush.c in its own form: one object whose fields the methods
  update in place, loops over characters, a sizing pass before a copying pass.
 */
module HushReader {
  import opened Options
  import opened Strings
  import opened HushSyntax
  import opened HushKeywords
  import opened HushParser

  // ----- done_word's two passes, on memory that holds the word and its NUL -----

  /** Where a pass stops, read from position s on; None if it leaves the memory. */
  function Stop(mem: string, s: nat): Option<nat>
    decreases |mem| - s
  {
    if s >= |mem| then None
    else if mem[s] == NUL then Some(s)
    else Stop(mem, if mem[s] == '\\' then s + 2 else s + 1)
  }

  lemma StopsBehind(mem: string, s: nat)
    requires Stop(mem, s).Some?
    ensures s <= Stop(mem, s).value < |mem|
    decreases |mem| - s
  {
    if mem[s] != NUL {
      StopsBehind(mem, if mem[s] == '\\' then s + 2 else s + 1);
    }
  }

  /** The characters that the copying pass writes, from position s on. */
  function Copied(mem: string, s: nat): string
    requires Stop(mem, s).Some?
    decreases |mem| - s
  {
    if mem[s] == NUL then ""
    else if mem[s] == '\\' then
      assert Stop(mem, s + 2).Some?;
      [mem[s + 1]] + Copied(mem, s + 2)
    else [mem[s]] + Copied(mem, s + 1)
  }

  /** A word that ends in a backslash without a mate. */
  predicate Dangling(s: string) {
    if s == "" then false
    else if s[0] != '\\' then Dangling(s[1..])
    else |s| == 1 || Dangling(s[2..])
  }

  /** Memory that starts with the C string s. */
  ghost predicate StartsWith(mem: string, s: string) {
    |s| < |mem| && mem[..|s|] == s && mem[|s|] == NUL && NUL !in s
  }

  /** From position s of the word on: up to the NUL, or one step over it. */
  lemma {:induction false} PassFrom(mem: string, data: string, s: nat)
    requires StartsWith(mem, data) && s <= |data|
    ensures var end := Stop(mem, s);
      if !Dangling(data[s..]) then end == Some(|data|) && Copied(mem, s) == Unescape(data[s..])
      else
        && end == Stop(mem, |data| + 1)
        && (end.Some? ==> Copied(mem, s) == Unescape(data[s..]) + [NUL] + Copied(mem, |data| + 1))
    decreases |data| - s
  {
    if s < |data| {
      var t := data[s..];
      assert mem[s] == data[s] == t[0] && t[1..] == data[s + 1..];
      if mem[s] != '\\' {
        PassFrom(mem, data, s + 1);
      } else if s + 1 < |data| {
        assert mem[s + 1] == data[s + 1] == t[1] && t[2..] == data[s + 2..];
        PassFrom(mem, data, s + 2);
      }
    }
  }

  /**
    Both passes stop at the word's NUL, whatever lies behind it, exactly when the
    word has no unpaired final backslash; else they read on behind the NUL.
   */
  lemma PassesStayIff(mem: string, data: string)
    requires StartsWith(mem, data)
    ensures Stop(mem, 0) == Some(|data|) <==> !Dangling(data)
    ensures Dangling(data) && Stop(mem, 0).Some? ==> Stop(mem, 0).value > |data|
  {
    PassFrom(mem, data, 0);
    assert data[0..] == data;
    if Dangling(data) && Stop(mem, 0).Some? {
      StopsBehind(mem, |data| + 1);
    }
  }

  lemma {:induction false} NoNulCopied(s: string)
    requires NUL !in s
    ensures NUL !in Unescape(s)
    decreases |s|
  {
    if s != "" && s[0] != '\\' {
      NoNulCopied(s[1..]);
    } else if |s| > 1 {
      NoNulCopied(s[2..]);
    }
  }

  /** Where the passes stay inside the memory, the copy is the unescaped word as a C string. */
  lemma CopyIsWord(mem: string, data: string)
    requires StartsWith(mem, data) && Stop(mem, 0).Some?
    ensures CString(Copied(mem, 0) + [NUL]) == Unescape(data)
    ensures !Dangling(data) ==> Copied(mem, 0) == Unescape(data)
  {
    PassFrom(mem, data, 0);
    assert data[0..] == data;
    NoNulCopied(data);
    var u := Unescape(data);
    if !Dangling(data) {
      FindBehind(u, NUL, "");
      assert u + [NUL] == u + ([NUL] + "");
    } else {
      var more := Copied(mem, |data| + 1) + [NUL];
      FindBehind(u, NUL, more);
      assert Copied(mem, 0) + [NUL] == u + ([NUL] + more);
    }
  }

  lemma {:induction false} StopShifts(a: string, b: string, s: nat)
    ensures Stop(a + b, |a| + s).Some? == Stop(b, s).Some?
    decreases |b| - s
  {
    if s < |b| {
      assert (a + b)[|a| + s] == b[s];
      if b[s] != NUL {
        StopShifts(a, b, if b[s] == '\\' then s + 2 else s + 1);
      }
    }
  }

  /** A pass that has to read on finds its end if one lies behind the NUL. */
  lemma WordStops(data: string, behind: string)
    requires NUL !in data && Stop(behind, 0).Some?
    ensures var mem := data + [NUL] + behind; StartsWith(mem, data) && Stop(mem, 0).Some?
  {
    var mem := data + [NUL] + behind;
    assert mem[..|data|] == data && mem[|data|] == NUL;
    PassFrom(mem, data, 0);
    assert data[0..] == data;
    StopShifts(data + [NUL], behind, 0);
  }

  /** `'a\'`: the quoted backslash stays alone, and both passes read behind the word. */
  lemma QuotedBackslashDangles(st: ParseState, k: string, trigger: bool, behind: string)
    requires st.dest == OString("", false, false)
    ensures ParseStream(st, "'a\\'" + k, trigger) == ParseStream(st.(dest := OString("a\\", false, true)), k, trigger)
    ensures Stop("a\\" + [NUL] + behind, 0) != Some(|"a\\"|)
  {
    var inp, mem := "'a\\'" + k, "a\\" + [NUL] + behind;
    FindBehind("a\\", '\'', k);
    assert inp[1..] == "a\\" + (['\''] + k);
    assert inp[1..][..2] == "a\\" && inp[1..][3..] == k && "" + "a\\" == "a\\";
    assert ParseChar(st, inp, trigger) == Go(st.(dest := OString("a\\", false, true)), k);
    assert Dangling("a\\") by {
      assert "a\\"[1..] == "\\";
    }
    assert mem[..2] == "a\\";
    PassesStayIff(mem, "a\\");
  }

  /** done_word's first pass: the number of bytes to allocate. */
  method SizeWord(mem: array<char>) returns (cnt: nat)
    requires Stop(mem[..], 0).Some?
    ensures cnt == |Copied(mem[..], 0)| + 1
  {
    cnt := 1;
    var s := 0;
    StopsBehind(mem[..], 0);
    while mem[s] != NUL
      invariant 0 <= s < mem.Length && Stop(mem[..], s) == Stop(mem[..], 0)
      invariant cnt + |Copied(mem[..], s)| == |Copied(mem[..], 0)| + 1
      decreases mem.Length - s
    {
      StopsBehind(mem[..], if mem[s] == '\\' then s + 2 else s + 1);
      if mem[s] == '\\' {
        s := s + 1;
      }
      cnt, s := cnt + 1, s + 1;
    }
  }

  /** done_word's second pass: it fills a buffer of that size to its last byte. */
  method CopyWord(mem: array<char>) returns (str: array<char>)
    requires Stop(mem[..], 0).Some?
    ensures fresh(str) && str[..] == Copied(mem[..], 0) + [NUL]
  {
    var cnt := SizeWord(mem);
    str := new char[cnt];
    ghost var m := mem[..];
    ghost var all := Copied(m, 0);
    var n, s := 0, 0;
    StopsBehind(m, 0);
    while mem[s] != NUL
      invariant 0 <= s < mem.Length && mem[..] == m && Stop(m, s).Some?
      invariant 0 <= n < str.Length && str[..n] + Copied(m, s) == all
      decreases mem.Length - s
    {
      hide Copied, Stop;
      CopyStep(m, s);
      ghost var done := str[..n];
      if mem[s] == '\\' {
        s := s + 1;
      }
      ghost var rest := Copied(m, s + 1);
      Grouped(done, [mem[s]], rest);
      str[n] := mem[s];
      assert str[..n + 1] == done + [mem[s]];
      n, s := n + 1, s + 1;
    }
    assert str[..n] == all;
    str[n] := NUL;
  }

  /** One round of the copy: the character behind a backslash, or the one that is there. */
  lemma CopyStep(m: string, s: nat)
    requires s < |m| && m[s] != NUL && Stop(m, s).Some?
    ensures var s' := if m[s] == '\\' then s + 1 else s;
      s' + 1 < |m| && Copied(m, s) == [m[s']] + Copied(m, s' + 1) && Stop(m, s' + 1).Some?
  {
    StopsBehind(m, if m[s] == '\\' then s + 2 else s + 1);
  }

  lemma Grouped(a: string, b: string, c: string)
    ensures a + (b + c) == (a + b) + c && |(a + b) + c| == |a| + |b| + |c|
  {
  }

  /** Both passes over a word that lies in memory in front of other bytes; the copy is read as a C string. */
  method TakeWord(data: string, behind: string) returns (word: string)
    requires NUL !in data && Stop(behind, 0).Some?
    ensures word == Unescape(data)
  {
    var bytes := data + [NUL] + behind;
    WordStops(data, behind);
    var mem := new char[|bytes|](i requires 0 <= i < |bytes| => bytes[i]);
    assert mem[..] == bytes;
    var str := CopyWord(mem);
    CopyIsWord(bytes, data);
    word := CString(str[..]);
  }

  lemma DollarNoNul(o: OString, inp: string)
    requires NUL !in inp && NUL !in o.data
    ensures var r := HandleDollar(o, inp); r.Some? ==> NUL !in r.value.0.data
  {
  }

  lemma WordDoneNoNul(st: ParseState)
    requires NUL !in st.dest.data
    ensures NUL !in DoneWord(st).0.dest.data
  {
  }

  lemma RoundNoNul(st: ParseState, inp: string, trigger: bool)
    requires inp != "" && NUL !in inp && NUL !in st.dest.data
    ensures var r := ParseChar(st, inp, trigger); r.Go? ==> NUL !in r.st.dest.data && NUL !in r.rest
  {
    hide DoneWord, HandleDollar;
    WordDoneNoNul(st);
    DollarNoNul(st.dest, inp[1..]);
    if ParseChar(st, inp, trigger).Go? {
      RestIsSuffix(st, inp, trigger);
    }
  }

  // ----- unpaired backslashes come from single quotes and substituted text only -----

  lemma {:induction false} DanglingCat(a: string, b: string)
    requires !Dangling(a)
    ensures Dangling(a + b) == Dangling(b)
    decreases |a|
  {
    if a == "" {
      assert a + b == b;
    } else if a[0] != '\\' {
      assert (a + b)[1..] == a[1..] + b;
      DanglingCat(a[1..], b);
    } else {
      assert (a + b)[2..] == a[2..] + b;
      DanglingCat(a[2..], b);
    }
  }

  lemma {:induction false} EndsPaired(a: string)
    requires a != "" && a[|a| - 1] != '\\'
    ensures !Dangling(a)
    decreases |a|
  {
    if a[0] != '\\' {
      if |a| > 1 {
        EndsPaired(a[1..]);
      }
    } else if |a| > 2 {
      EndsPaired(a[2..]);
    }
  }

  /** The input holds no single quote and no marker of substituted text. */
  predicate Unmarked(inp: string) {
    '\'' !in inp && SUBSTED !in inp
  }

  lemma AddQPaired(o: OString, ch: char)
    requires !Dangling(o.data) && ch != '\\'
    ensures !Dangling(AddQ(o, ch).data)
  {
    var more := if o.quote && NeedsEscape(ch) then ['\\', ch] else [ch];
    DanglingCat(o.data, more);
    EndsPaired(more);
  }

  lemma BackslashPaired(o: OString, ch: char)
    requires !Dangling(o.data)
    ensures !Dangling(AddQ(AddQ(o, '\\'), ch).data)
  {
    if !o.quote {
      var more := ['\\', ch];
      assert more[2..] == "";
      DanglingCat(o.data, more);
      assert AddQ(AddQ(o, '\\'), ch).data == o.data + more;
    } else {
      var two, more := ['\\', '\\'], if NeedsEscape(ch) then ['\\', ch] else [ch];
      assert two[2..] == "";
      DanglingCat(o.data, two);
      DanglingCat(o.data + two, more);
      if NeedsEscape(ch) {
        assert more[2..] == "";
      } else {
        EndsPaired(more);
      }
    }
  }

  lemma MarkedPaired(o: OString, name: string)
    requires !Dangling(o.data)
    ensures !Dangling(AddAll(o, [MARKER] + name + [MARKER]).data)
  {
    var more := [MARKER] + name + [MARKER];
    DanglingCat(o.data, more);
    EndsPaired(more);
  }

  lemma DollarPaired(o: OString, inp: string)
    requires !Dangling(o.data)
    ensures var r := HandleDollar(o, inp); r.Some? ==> !Dangling(r.value.0.data)
  {
    hide Dangling;
    AddQPaired(o, '$');
    if inp != "" && IsAlpha(inp[0]) {
      MarkedPaired(o, inp[..NameSpan(inp)]);
    } else if inp != "" && inp[0] == '?' {
      MarkedPaired(o, "$?");
      assert [MARKER] + "$?" + [MARKER] == [MARKER, '$', '?', MARKER];
    } else if inp != "" && inp[0] == '{' {
      MarkedPaired(o, inp[1..Find(inp[1..], '}') + 1]);
    }
  }

  lemma WordDonePaired(st: ParseState)
    requires !Dangling(st.dest.data)
    ensures !Dangling(DoneWord(st).0.dest.data)
  {
  }

  lemma SuffixUnmarked(inp: string, n: nat)
    requires Unmarked(inp) && n <= |inp|
    ensures Unmarked(inp[n..])
  {
  }

  /** One round of the character loop leaves every backslash with its mate. */
  lemma RoundPaired(st: ParseState, inp: string, trigger: bool)
    requires inp != "" && Unmarked(inp) && !Dangling(st.dest.data)
    ensures var r := ParseChar(st, inp, trigger);
      !Dangling((if r.Go? then r.st else r.r.st).dest.data) && (r.Go? ==> Unmarked(r.rest))
  {
    hide Dangling;
    var ch, rest, o := inp[0], inp[1..], st.dest;
    var r := ParseChar(st, inp, trigger);
    if r.Go? {
      assert exists n :: 0 <= n <= |inp| && r.rest == inp[n..] by {
        RestIsSuffix(st, inp, trigger);
      }
      var n :| 0 <= n <= |inp| && r.rest == inp[n..];
      SuffixUnmarked(inp, n);
    }
    WordDonePaired(st);
    if Class(ch) != 3 || ch == '#' {
      AddQPaired(o, ch);
    } else if ch == '\\' && rest != "" {
      BackslashPaired(o, rest[0]);
    } else if ch == '$' {
      DollarPaired(o, rest);
    }
  }

  lemma RestIsSuffix(st: ParseState, inp: string, trigger: bool)
    requires inp != "" && ParseChar(st, inp, trigger).Go?
    ensures exists n :: 0 <= n <= |inp| && ParseChar(st, inp, trigger).rest == inp[n..]
  {
    var r := ParseChar(st, inp, trigger);
    var n := |inp| - |r.rest|;
    assert r.rest == inp[n..];
  }

  /** So, from a word without one, no run of the loop over such input makes an unpaired backslash. */
  lemma {:induction false} RunPaired(st: ParseState, inp: string, trigger: bool)
    requires Unmarked(inp) && !Dangling(st.dest.data)
    ensures !Dangling(ParseStream(st, inp, trigger).st.dest.data)
    decreases |inp|
  {
    if inp != "" {
      hide ParseChar, Dangling;
      RoundPaired(st, inp, trigger);
      var r := ParseChar(st, inp, trigger);
      if r.Go? {
        RunPaired(r.st, r.rest, trigger);
      }
    }
  }

  // ----- the end of the input -----

  predicate EndsLine(s: string) {
    s != "" && s[|s| - 1] == '\n'
  }

  /** parse_string_outer's input: a newline is added unless the first one is the last character. */
  function Terminated(s: string): (t: string)
    requires s != ""
    ensures EndsLine(t)
    ensures t == if EndsLine(s) && '\n' !in s[..|s| - 1] then s else s + "\n"
  {
    if Find(s, '\n') + 1 == |s| then s else s + "\n"
  }

  /** Some round of parse_stream_outer's calls starts with a backslash that nothing follows. */
  predicate MeetsFinalBackslash(st: ParseState, inp: string, trigger: bool)
    decreases |inp|
  {
    inp != "" &&
    (inp == "\\" ||
     match ParseChar(st, inp, trigger)
     case Go(st, rest) => MeetsFinalBackslash(st, rest, trigger)
     case Leave(Triggered(_, rest)) => |rest| < |inp| && MeetsFinalBackslash(FRESH_STATE, rest, trigger)
     case Leave(_) => false)
  }

  lemma RoundEndsLine(st: ParseState, inp: string, trigger: bool)
    requires EndsLine(inp)
    ensures var r := ParseChar(st, inp, trigger);
      (r.Go? ==> r.rest == "" || EndsLine(r.rest)) &&
      (r.Leave? && r.r.Triggered? ==> r.r.rest == "" || EndsLine(r.r.rest))
  {
    if ParseChar(st, inp, trigger).Go? {
      RestIsSuffix(st, inp, trigger);
    }
  }

  lemma {:induction false} LineNeverDangles(st: ParseState, inp: string, trigger: bool)
    requires EndsLine(inp)
    ensures !MeetsFinalBackslash(st, inp, trigger)
    decreases |inp|
  {
    hide ParseChar;
    RoundEndsLine(st, inp, trigger);
    match ParseChar(st, inp, trigger)
    case Go(st, rest) =>
      if rest != "" {
        LineNeverDangles(st, rest, trigger);
      }
    case Leave(Triggered(_, rest)) =>
      if rest != "" && |rest| < |inp| {
        LineNeverDangles(FRESH_STATE, rest, trigger);
      }
    case Leave(_) =>
  }

  /** On any string that parse_string_outer is given, no round meets a backslash as the last character. */
  lemma BackslashNeverLast(s: string, trigger: bool)
    requires s != ""
    ensures !MeetsFinalBackslash(FRESH_STATE, Terminated(s), trigger)
  {
    LineNeverDangles(FRESH_STATE, Terminated(s), trigger);
  }

  /** When reserved_word refuses a keyword. */
  predicate Misplaced(st: ParseState, code: ReservedStyle)
    requires IsKeyword(code)
  {
    var m, flags := st.ctx.mark, FollowUps(code);
    if ResXxxx in flags then m.w.ResIn? || m.w.ResFor?
    else m.w.ResNone? || code !in m.oldFlag || (ResNone in flags && st.stack == [])
  }

  /** What it does with each kind of keyword. */
  lemma KeywordCases(st: ParseState, code: ReservedStyle)
    requires IsKeyword(code)
    ensures var c, flags, st0 := st.ctx, FollowUps(code), st.(dest := Reset(st.dest));
      ReservedWord(st, code)
      == if Misplaced(st, code) then (st0.(ctx := c.(mark := c.mark.(w := ResSntx))), true)
         else if ResXxxx in flags then
           (st0.(ctx := Context(Mark(code, flags), [], NO_CHILD), stack := [c] + st.stack), false)
         else if ResNone !in flags then (st0.(ctx := c.(mark := Mark(code, flags))), false)
         else
           var list := DonePipe(c.(mark := Mark(code, flags)), PipeSeq).pipes + [TRAILER];
           var saved := st.stack[0];
           (st0.(ctx := saved.(child := saved.child.(group := Some(list))), stack := st.stack[1..]), false)
  {
    hide FollowUps, DonePipe;
  }

  class Parser {
    var w: ReservedStyle
    var oldFlag: set<ReservedStyle>
    var pipes: seq<Pipe>
    var argv: seq<string>
    var group: Option<seq<Pipe>>
    var stack: seq<Context>
    var data: string
    var quote: bool
    var nonnull: bool
    /** What lies in memory behind the gathered word and its NUL. */
    const behind: string

    /** Words are C strings, and a pass that reads behind one comes to an end. */
    ghost predicate Valid()
      reads this
    {
      NUL !in data && Stop(behind, 0).Some?
    }

    ghost function State(): ParseState
      reads this
    {
      ParseState(Context(Mark(w, oldFlag), pipes, Child(argv, group)), stack, OString(data, quote, nonnull))
    }

    constructor (behind: string)
      requires Stop(behind, 0).Some?
      ensures Valid() && State() == FRESH_STATE
    {
      this.behind := behind;
      w, oldFlag, pipes, argv, group, stack := ResNone, {}, [], [], None, [];
      data, quote, nonnull := "", false, false;
    }

    method AddQChr(ch: char)
      modifies this
      ensures State() == old(State()).(dest := AddQ(old(State()).dest, ch))
    {
      if quote && NeedsEscape(ch) {
        data := data + ['\\'];
      }
      data := data + [ch];
      assert old(data) + ['\\'] + [ch] == old(data) + ['\\', ch];
    }

    method FinishPipe(style: PipeStyle)
      modifies this
      ensures State() == old(State()).(ctx := DonePipe(old(State()).ctx, style))
    {
      var prog := if group.Some? then Group(group.value) else if argv != [] then Words(argv) else NoProg;
      pipes := pipes + [Pipe(w, style, prog)];
      argv, group := [], None;
    }

    /** The pop of reserved_word: the finished list becomes the saved context's group. */
    method PopContext()
      requires stack != []
      modifies this
      ensures var st := old(State());
        var c := st.stack[0];
        State() == st.(ctx := c.(child := c.child.(group := Some(DonePipe(st.ctx, PipeSeq).pipes + [TRAILER]))),
            stack := st.stack[1..])
    {
      FinishPipe(PipeSeq);
      var list, saved := pipes + [TRAILER], stack[0];
      w, oldFlag, pipes, argv, group := saved.mark.w, saved.mark.oldFlag, saved.pipes, saved.child.argv, Some(list);
      stack := stack[1..];
    }

    /** Its push: a new context for the inner compound. */
    method PushContext(code: ReservedStyle, flags: set<ReservedStyle>)
      modifies this
      ensures var st := old(State());
        State() == st.(ctx := Context(Mark(code, flags), [], NO_CHILD), stack := [st.ctx] + st.stack)
    {
      stack := [Context(Mark(w, oldFlag), pipes, Child(argv, group))] + stack;
      w, oldFlag, pipes, argv, group := code, flags, [], [], None;
    }

    method TakeKeyword(code: ReservedStyle) returns (err: bool)
      requires IsKeyword(code)
      modifies this
      ensures (State(), err) == ReservedWord(old(State()), code)
    {
      KeywordCases(State(), code);
      hide FollowUps, DonePipe, ReservedWord;
      data, nonnull, err := "", false, false;
      var flags := FollowUps(code);
      if ResXxxx in flags {
        if w.ResIn? || w.ResFor? {
          w := ResSntx;
          return true;
        }
        PushContext(code, flags);
        return;
      } else if w.ResNone? || code !in oldFlag || (ResNone in flags && stack == []) {
        w := ResSntx;
        return true;
      }
      w, oldFlag := code, flags;
      if ResNone in flags {
        PopContext();
      }
    }

    method FinishWord() returns (err: bool)
      requires Valid()
      modifies this
      ensures Valid() && (State(), err) == DoneWord(old(State()))
    {
      if data == "" && !nonnull {
        return false;
      }
      if group.Some? {
        return true;
      }
      if argv == [] && KeywordOf(data).Some? {
        var _ := TakeKeyword(KeywordOf(data).value);
        return w.ResSntx?;
      }
      var word := TakeWord(data, behind);
      argv := argv + [word];
      data, nonnull := "", false;
      if w.ResFor? {
        FinishPipe(PipeSeq);
      }
      return false;
    }

    /** parse_stream on a string; consumed input is dropped from the front. */
    method ReadStream(inp: string, trigger: bool) returns (code: int, rest: string)
      requires Valid() && NUL !in inp
      modifies this
      ensures var r := ParseStream(old(State()), inp, trigger);
        && State() == r.st
        && code == (if r.Triggered? then 0 else if r.SyntaxError? then 1 else -1)
        && (r.Triggered? ==> rest == r.rest)
    {
      rest := inp;
      while rest != ""
        invariant Valid() && NUL !in rest
        invariant ParseStream(State(), rest, trigger) == ParseStream(old(State()), inp, trigger)
        decreases |rest|
      {
        RoundNoNul(State(), rest, trigger);
        var more;
        code, more, rest := ReadChar(rest, trigger);
        if !more {
          return;
        }
      }
      code := -1;
    }

    /** The body of parse_stream's loop. */
    method ReadChar(inp: string, trigger: bool) returns (code: int, more: bool, rest: string)
      requires inp != "" && Valid()
      modifies this
      ensures var r := ParseChar(old(State()), inp, trigger);
        && more == r.Go?
        && (more ==> State() == r.st && rest == r.rest && |rest| < |inp|)
        && (!more ==> State() == r.r.st && code == (if r.r.Triggered? then 0 else 1) && !r.r.EndOfInput?)
        && (!more && code == 0 ==> rest == r.r.rest)
    {
      code, more, rest := 1, true, inp[1..];
      var ch, m := inp[0], Class(inp[0]);
      if m == 0 || (m != 3 && quote) {
        AddQChr(ch);
      } else if m == 2 {
        var err := FinishWord();
        if err {
          more := false;
        } else if ch == '\n' {
          FinishPipe(PipeSeq);
          if trigger && w.ResNone? {
            code, more := 0, false;
          }
        }
      } else if ch == '#' {
        if data == "" {
          rest := rest[Find(rest, '\n')..];
        } else {
          AddQChr(ch);
        }
      } else if ch == '\\' {
        if rest == "" {
          more := false;
        } else {
          AddQChr('\\');
          AddQChr(rest[0]);
          rest := rest[1..];
        }
      } else if ch == '$' {
        var r := HandleDollar(OString(data, quote, nonnull), rest);
        if r.None? {
          more := false;
        } else {
          data, rest := r.value.0.data, r.value.1;
        }
      } else if ch == '"' {
        nonnull, quote := true, !quote;
      } else if ch == ';' {
        var _ := FinishWord();
        FinishPipe(PipeSeq);
      } else if ch == '&' || ch == '|' {
        var _ := FinishWord();
        if rest != "" && rest[0] == ch {
          FinishPipe(if ch == '&' then PipeAnd else PipeOr);
          rest := rest[1..];
        } else {
          more := false;
        }
      } else {
        var n := Find(rest, ch);
        nonnull, data := true, data + rest[..n];
        if n == |rest| {
          more := false;
        } else {
          rest := rest[n + 1..];
        }
      }
    }
  }
}
