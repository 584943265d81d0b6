/**
  cread_line of cli_readline.c: keys edit a buffer, and every edit sends bytes
  that keep a one-line terminal showing exactly that buffer.
 */
module LineEditor {
  import opened Options
  import opened Terminal
  import opened History

  const ESC: char := 27 as char
  const DEL: char := 255 as char
  const DEL7: char := 127 as char

  function Ctl(c: char): char
    requires 'a' <= c <= 'z'
  {
    (c as int - 'a' as int + 1) as char
  }

  /** What cread_line did with a byte. */
  datatype Step = Continue | Enter | Break

  // ----- what the keys mean, without a terminal -----

  /** The line, the cursor and the insert mode. */
  datatype Edit = Edit(line: string, cur: nat, insert: bool)

  function AddChar(e: Edit, c: char, len: nat): Edit
    requires e.cur <= |e.line|
  {
    if (e.insert || e.cur == |e.line|) && |e.line| >= len then e
    else if e.insert || e.cur == |e.line| then Edit(e.line[..e.cur] + [c] + e.line[e.cur..], e.cur + 1, e.insert)
    else Edit(e.line[e.cur := c], e.cur + 1, e.insert)
  }

  function Without(line: string, k: nat): string
    requires k < |line|
  {
    line[..k] + line[k + 1..]
  }

  function AddChars(e: Edit, s: string, len: nat): (r: Edit)
    requires e.cur <= |e.line|
    ensures r.cur <= |r.line|
  {
    if s == "" then e else AddChar(AddChars(e, s[..|s| - 1], len), s[|s| - 1], len)
  }

  /** The editing keys; recalled is what the history gave for ^P or ^N. */
  function Press(e: Edit, c: char, len: nat, recalled: Option<string>): Edit
    requires e.cur <= |e.line|
  {
    if c == Ctl('a') then e.(cur := 0)
    else if c == Ctl('f') then if e.cur < |e.line| then e.(cur := e.cur + 1) else e
    else if c == Ctl('b') then if e.cur > 0 then e.(cur := e.cur - 1) else e
    else if c == Ctl('d') then if e.cur < |e.line| then e.(line := Without(e.line, e.cur)) else e
    else if c == Ctl('k') then e.(line := e.line[..e.cur])
    else if c == Ctl('e') then e.(cur := |e.line|)
    else if c == Ctl('o') then e.(insert := !e.insert)
    else if c == Ctl('x') || c == Ctl('u') then e.(line := "", cur := 0)
    else if c == DEL || c == DEL7 || c == BACKSPACE then
      if e.cur > 0 then e.(line := Without(e.line, e.cur - 1), cur := e.cur - 1) else e
    else if c == Ctl('p') || c == Ctl('n') then
      if recalled.Some? then e.(line := recalled.value, cur := |recalled.value|) else e
    else AddChar(e, c, len)
  }

  /** The bytes that cursor keys arrive as, behind ESC and `[`. */
  function ArrowKey(c: char): Option<char> {
    if c == 'D' then Some(Ctl('b'))
    else if c == 'C' then Some(Ctl('f'))
    else if c == 'H' then Some(Ctl('a'))
    else if c == 'A' then Some(Ctl('p'))
    else if c == 'B' then Some(Ctl('n'))
    else None
  }

  /** The keys that edit without adding a character. */
  predicate IsEditKey(c: char) {
    c in [Ctl('a'), Ctl('b'), Ctl('d'), Ctl('e'), Ctl('f'), Ctl('k'), Ctl('n'), Ctl('o'), Ctl('p'), Ctl('u'), Ctl('x'),
          BACKSPACE, DEL7, DEL]
  }

  /** The key that byte c completes, if it completes one. */
  function Key(escLen: nat, c: char): Option<char> {
    if escLen == 0 then if c == ESC then None else Some(c)
    else if escLen == 2 then ArrowKey(c)
    else None
  }

  function EscAfter(escLen: nat, c: char): nat {
    if escLen == 0 && c == ESC then 1 else if escLen == 1 && c == '[' then 2 else 0
  }

  /** The bytes of a sequence that c shows to be no cursor key; they are typed into the line. */
  function Broken(escLen: nat, c: char): string {
    if escLen == 1 && c != '[' then [ESC]
    else if escLen == 2 && ArrowKey(c).None? then [ESC, '[', c]
    else ""
  }

  /** What the history gives for ^P (older) or ^N, and where it stands afterwards. */
  function Recalled(stored: seq<string>, pos: Option<nat>, older: bool): (r: Option<string>)
  {
    if pos.None? then None
    else if older then if pos.value < Reach(stored) then Some(Recent(stored, pos.value + 1)) else None
    else if pos.value == 0 then None
    else if pos.value == 1 then Some("")
    else if pos.value > |stored| then None
    else Some(Recent(stored, pos.value - 1))
  }

  function Browsed(stored: seq<string>, pos: Option<nat>, older: bool): Option<nat> {
    if pos.None? then None
    else if older then if pos.value < Reach(stored) then Some(pos.value + 1) else pos
    else if pos.value == 0 then pos else Some(pos.value - 1)
  }

  /** What a session is about: the edited line, the escape state, the place in the history. */
  datatype Session = Session(edit: Edit, escLen: nat, pos: Option<nat>)

  /** Runs made of whole or half cursor-key sequences, editing keys and printable keys. */
  predicate Tame(escLen: nat, input: string)
    decreases |input|
  {
    input == "" ||
    (var c, k := input[0], Key(escLen, input[0]);
     && c != '\n' && c != '\r'
     && (EscAfter(escLen, c) > 0 || (k.Some? && (IsEditKey(k.value) || Displayable(k.value))))
     && Tame(EscAfter(escLen, c), input[1..]))
  }

  /** No byte ends the line or breaks it off. */
  predicate Lasts(escLen: nat, input: string)
    decreases |input|
  {
    input == "" ||
    (var c := input[0];
     && c != '\n' && c != '\r' && !(escLen == 0 && c == 3 as char)
     && Lasts(EscAfter(escLen, c), input[1..]))
  }

  lemma {:induction false} TameLasts(escLen: nat, input: string)
    requires Tame(escLen, input)
    ensures Lasts(escLen, input)
    decreases |input|
  {
    if input != "" {
      TameLasts(EscAfter(escLen, input[0]), input[1..]);
    }
  }

  /** One byte, without a terminal. */
  function PlayByte(s: Session, c: char, len: nat, stored: seq<string>): (r: Session)
    requires s.edit.cur <= |s.edit.line|
    ensures r.edit.cur <= |r.edit.line|
  {
    var k := Key(s.escLen, c);
    if k.None? then s.(escLen := EscAfter(s.escLen, c), edit := AddChars(s.edit, Broken(s.escLen, c), len))
    else
      var older := k.value == Ctl('p');
      Session(Press(s.edit, k.value, len, Recalled(stored, s.pos, older)), EscAfter(s.escLen, c),
              if older || k.value == Ctl('n') then Browsed(stored, s.pos, older) else s.pos)
  }

  function Played(s: Session, input: string, len: nat, stored: seq<string>): Session
    requires s.edit.cur <= |s.edit.line|
    decreases |input|
  {
    if input == "" then s else Played(PlayByte(s, input[0], len, stored), input[1..], len, stored)
  }

  lemma TameStep(escLen: nat, input: string)
    requires Tame(escLen, input) && input != ""
    ensures Tame(escLen, [input[0]]) && Tame(EscAfter(escLen, input[0]), input[1..])
  {
    assert [input[0]][1..] == "";
  }

  lemma PlayedStep(s: Session, input: string, len: nat, stored: seq<string>)
    requires s.edit.cur <= |s.edit.line| && input != ""
    ensures Played(s, input, len, stored) == Played(PlayByte(s, input[0], len, stored), input[1..], len, stored)
  {
  }

  lemma PlayedNothing(len: nat, stored: seq<string>)
    ensures forall s: Session :: s.edit.cur <= |s.edit.line| ==> Played(s, "", len, stored) == s
  {
  }

  // ----- sending a redraw -----

  /** Bytes that redraw from the cursor, appended to what was sent, show the new line. */
  lemma Redrawn(out: string, line: string, cur: nat, line': string, e: nat, k: nat, m: nat, out': string)
    requires Shows(Replay(BLANK, out), line, cur) && cur <= e <= |line'| && cur <= |line| && m <= e + k
    requires AllDisplayable(line') && line'[..cur] == line[..cur]
    requires (e == |line'| && |line'| + k >= |line|) || (k == 0 && |line| == |line'| && line'[e..] == line[e..])
    requires out' == ((out + line'[cur..e]) + Times(k, ' ')) + Times(m, BACKSPACE)
    ensures Shows(Replay(BLANK, out'), line', e + k - m)
  {
    var s := line'[cur..e] + Times(k, ' ') + Times(m, BACKSPACE);
    assert out' == out + s;
    ReplayCat(BLANK, out, s);
    Redraw(Replay(BLANK, out), line, cur, line', e, k, m);
  }

  /** Backspaces move the cursor and change nothing else. */
  lemma Moved(out: string, line: string, cur: nat, m: nat, out': string)
    requires Shows(Replay(BLANK, out), line, cur) && m <= cur <= |line| && AllDisplayable(line)
    requires out' == out + Times(m, BACKSPACE)
    ensures Shows(Replay(BLANK, out'), line, cur - m)
  {
    ReplayCat(BLANK, out, Times(m, BACKSPACE));
    ReplayBack(Replay(BLANK, out), m);
  }

  lemma SliceOfPrefix(s: string, n: nat, i: nat, j: nat)
    requires i <= j <= n <= |s|
    ensures s[..n][i..j] == s[i..j]
  {
  }

  lemma NoBlanks(s: string)
    ensures s + Times(0, ' ') == s && s + Times(0, BACKSPACE) == s
  {
  }

  lemma InsertDisplayable(line: string, k: nat, c: char)
    requires AllDisplayable(line) && Displayable(c) && k <= |line|
    ensures AllDisplayable(line[..k] + [c] + line[k..])
  {
  }

  // ----- memmove -----

  /** Opens a gap at k for c. */
  method MoveUp(buf: array<char>, k: nat, n: nat, c: char)
    requires k <= n < buf.Length
    modifies buf
    ensures buf[..n + 1] == old(buf[..n])[..k] + [c] + old(buf[..n])[k..]
  {
    forall i | k < i <= n {
      buf[i] := buf[i - 1];
    }
    buf[k] := c;
  }

  /** Closes the gap at k. */
  method MoveDown(buf: array<char>, k: nat, n: nat)
    requires k < n <= buf.Length
    modifies buf
    ensures buf[..n - 1] == Without(old(buf[..n]), k)
  {
    forall i | k <= i < n - 1 {
      buf[i] := buf[i + 1];
    }
  }

  // ----- the editor -----

  class Editor {
    const buf: array<char>
    const len: nat
    const log: Log
    var num: nat
    var eolNum: nat
    var insert: bool
    var escLen: nat
    var out: string

    ghost predicate Valid()
      reads this, buf, log
    {
      && 1 <= len < buf.Length && num <= eolNum <= len && escLen <= 2
      && log.Valid()
      && forall i :: 0 <= i < |log.stored| ==> |log.stored[i]| <= len && AllDisplayable(log.stored[i])
    }

    ghost function Line(): string
      requires eolNum <= buf.Length
      reads this, buf
    {
      buf[..eolNum]
    }

    ghost function Now(): Edit
      requires eolNum <= buf.Length
      reads this, buf
    {
      Edit(Line(), num, insert)
    }

    /** Replaying all bytes sent so far shows the line with the cursor in place. */
    ghost predicate Shown()
      requires eolNum <= buf.Length
      reads this, buf
    {
      AllDisplayable(Line()) && Shows(Replay(BLANK, out), Line(), num)
    }

    constructor (buf: array<char>, len: nat, log: Log)
      requires 1 <= len < buf.Length && log.Valid()
      requires forall i :: 0 <= i < |log.stored| ==> |log.stored[i]| <= len && AllDisplayable(log.stored[i])
      ensures Valid() && Shown() && Now() == Edit("", 0, true) && escLen == 0
      ensures this.buf == buf && this.len == len && this.log == log
    {
      this.buf, this.len, this.log := buf, len, log;
      num, eolNum, insert, escLen, out := 0, 0, true, 0, "";
    }

    method Beep()
      modifies this`out
      ensures eolNum <= buf.Length && old(Shown()) ==> Shown()
    {
      out := out + [BELL];
      assert (out)[..|out| - 1] == old(out);
    }

    method PutBack(n: nat)
      modifies this`out
      ensures out == old(out) + Times(n, BACKSPACE)
    {
      var k := 0;
      while k < n
        invariant k <= n && out == old(out) + Times(k, BACKSPACE)
      {
        out := out + [BACKSPACE];
        k := k + 1;
        assert Times(k, BACKSPACE) == Times(k - 1, BACKSPACE) + [BACKSPACE];
      }
    }

    method PutString(s: string)
      modifies this`out
      ensures out == old(out) + s
    {
      out := out + s;
    }

    /** cread_add_char in insert mode, with room for one more character. */
    method InsertKey(ichar: char)
      requires Valid() && eolNum < len
      modifies this, buf
      ensures Valid() && escLen == old(escLen)
      ensures Now() == Edit(old(Line())[..old(num)] + [ichar] + old(Line())[old(num)..], old(num) + 1, old(insert))
      ensures old(Shown()) && Displayable(ichar) ==> Shown()
    {
      hide Replay, Shows, Holds;
      MoveUp(buf, num, eolNum, ichar);
      eolNum := eolNum + 1;
      var wlen := eolNum - num;
      ghost var line := Line();
      PutString(buf[num..num + wlen]);
      num := num + 1;
      PutBack(wlen - 1);
      if old(Shown()) && Displayable(ichar) {
        assert buf[old(num)..old(num) + wlen] == line[old(num)..|line|];
        NoBlanks(old(out) + line[old(num)..|line|]);
        InsertDisplayable(old(Line()), old(num), ichar);
        assert line[..old(num)] == old(Line())[..old(num)];
        Redrawn(old(out), old(Line()), old(num), line, |line|, 0, wlen - 1, out);
      }
    }

    /** cread_add_char in overwrite mode. */
    method OvertypeKey(ichar: char)
      requires Valid() && num < eolNum
      modifies this, buf
      ensures Valid() && escLen == old(escLen)
      ensures Now() == Edit(old(Line())[old(num) := ichar], old(num) + 1, old(insert))
      ensures old(Shown()) && Displayable(ichar) ==> Shown()
    {
      hide Replay, Shows, Holds;
      buf[num] := ichar;
      ghost var line := old(Line())[num := ichar];
      assert Line() == line;
      PutString(buf[num..num + 1]);
      num := num + 1;
      if old(Shown()) && Displayable(ichar) {
        assert out == old(out) + line[old(num)..num] + Times(0, ' ') + Times(0, BACKSPACE);
        Redrawn(old(out), old(Line()), old(num), line, num, 0, 0, out);
      }
    }

    /** cread_add_char */
    method AddKey(ichar: char)
      requires Valid()
      modifies this, buf
      ensures Valid() && escLen == old(escLen) && Now() == AddChar(old(Now()), ichar, len)
      ensures old(Shown()) && Displayable(ichar) ==> Shown()
    {
      hide Replay, Shows, Holds;
      if (insert || num == eolNum) && eolNum > len - 1 {
        Beep();
      } else if insert || num == eolNum {
        InsertKey(ichar);
      } else {
        OvertypeKey(ichar);
      }
    }

    /** BEGINNING_OF_LINE */
    method Home()
      requires Valid()
      modifies this
      ensures Valid() && escLen == old(escLen) && Now() == old(Now()).(cur := 0)
      ensures old(Shown()) ==> Shown()
    {
      hide Replay, Shows, Holds;
      PutBack(num);
      num := 0;
      if old(Shown()) {
        Moved(old(out), Line(), old(num), old(num), out);
      }
    }

    /** ^B */
    method Left()
      requires Valid() && num > 0
      modifies this
      ensures Valid() && escLen == old(escLen) && Now() == old(Now()).(cur := old(num) - 1)
      ensures old(Shown()) ==> Shown()
    {
      hide Replay, Shows, Holds;
      PutBack(1);
      num := num - 1;
      if old(Shown()) {
        Moved(old(out), Line(), old(num), 1, out);
      }
    }

    /** REFRESH_TO_EOL and ^F: sends the characters up to column e. */
    method Advance(e: nat)
      requires Valid() && num <= e <= eolNum
      modifies this
      ensures Valid() && escLen == old(escLen) && Now() == old(Now()).(cur := e)
      ensures old(Shown()) ==> Shown()
    {
      hide Replay, Shows, Holds;
      PutString(buf[num..e]);
      num := e;
      if old(Shown()) {
        SliceOfPrefix(buf[..], eolNum, old(num), e);
        assert buf[old(num)..e] == buf[..][old(num)..e];
        NoBlanks(old(out) + Line()[old(num)..e]);
        Redrawn(old(out), Line(), old(num), Line(), e, 0, 0, out);
      }
    }

    /** ERASE_TO_EOL */
    method EraseToEol()
      requires Valid()
      modifies this
      ensures Valid() && escLen == old(escLen) && Now() == old(Now()).(line := old(Line())[..old(num)])
      ensures var k := old(eolNum) - num; out == old(out) + Times(k, ' ') + Times(k, BACKSPACE)
      ensures old(Shown()) ==> Shown()
    {
      hide Replay, Shows, Holds;
      var k := eolNum - num;
      PutString(Times(k, ' '));
      PutBack(k);
      eolNum := num;
      assert Line() == old(Line())[..num];
      if old(Shown()) {
        assert old(out) + Line()[num..num] == old(out);
        Redrawn(old(out), old(Line()), num, Line(), num, k, k, out);
      }
    }

    /** ^U and ^X */
    method EraseLine()
      requires Valid()
      modifies this
      ensures Valid() && escLen == old(escLen) && Now() == old(Now()).(line := "", cur := 0)
      ensures old(Shown()) ==> Shown()
    {
      hide Replay, Shows, Holds;
      Home();
      EraseToEol();
    }

    /** ^D: the character under the cursor goes. */
    method DeleteHere()
      requires Valid() && num < eolNum
      modifies this, buf
      ensures Valid() && escLen == old(escLen) && Now() == old(Now()).(line := Without(old(Line()), old(num)))
      ensures old(Shown()) ==> Shown()
    {
      hide Replay, Shows, Holds;
      var wlen := eolNum - num - 1;
      MoveDown(buf, num, eolNum);
      PutString(buf[num..num + wlen]);
      PutString(" ");
      PutBack(wlen + 1);
      eolNum := eolNum - 1;
      ghost var line := Line();
      if old(Shown()) {
        assert buf[num..num + wlen] == line[num..|line|];
        assert Times(1, ' ') == " ";
        assert line[..num] == old(Line())[..num];
        Redrawn(old(out), old(Line()), num, line, |line|, 1, wlen + 1, out);
      }
    }

    /** Backspace: the character in front of the cursor goes. */
    method Rubout()
      requires Valid() && num > 0
      modifies this, buf
      ensures Valid() && escLen == old(escLen)
      ensures Now() == Edit(Without(old(Line()), old(num) - 1), old(num) - 1, old(insert))
      ensures old(Shown()) ==> Shown()
    {
      hide Replay, Shows, Holds;
      assert |Line()| == eolNum;
      Left();
      assert |Now().line| == eolNum;
      DeleteHere();
    }

    /** ^P and ^N: a line from the history replaces the current one. */
    method Recall(hline: string)
      requires Valid() && |hline| <= len && AllDisplayable(hline)
      modifies this, buf
      ensures Valid() && escLen == old(escLen) && Now() == Edit(hline, |hline|, old(insert))
      ensures old(Shown()) ==> Shown()
    {
      hide Replay, Shows, Holds;
      EraseLine();
      ghost var out0 := out;
      assert Line() == "";
      ghost var shown := Shows(Replay(BLANK, out0), "", 0);
      forall i | 0 <= i < |hline| {
        buf[i] := hline[i];
      }
      eolNum := |hline|;
      assert Line() == hline;
      PutString(buf[0..eolNum]);
      num := eolNum;
      if shown {
        assert buf[0..eolNum] == hline[0..|hline|];
        NoBlanks(out0 + hline[0..|hline|]);
        Redrawn(out0, "", 0, hline, |hline|, 0, 0, out);
      }
    }

    /** The history keys. */
    method Browse(older: bool)
      requires Valid()
      modifies this, buf, log
      ensures Valid() && escLen == old(escLen) && log.stored == old(log.stored)
      ensures var key := if older then Ctl('p') else Ctl('n');
        Now() == Press(old(Now()), key, len, Recalled(old(log.stored), old(log.pos), older))
      ensures log.pos == Browsed(old(log.stored), old(log.pos), older)
      ensures old(Shown()) ==> Shown()
    {
      hide Replay, Shows;
      var hline;
      if older {
        hline := log.Older();
      } else {
        hline := log.Newer();
      }
      assert hline == Recalled(old(log.stored), old(log.pos), older);
      if hline.None? {
        Beep();
      } else {
        assert |hline.value| <= len && AllDisplayable(hline.value);
        Recall(hline.value);
      }
    }

    /** The main switch of cread_line, for every key but ESC and the line ends. */
    method PressKey(ichar: char) returns (step: Step)
      requires Valid() && ichar != ESC
      modifies this, buf, log
      ensures Valid() && escLen == old(escLen) && log.stored == old(log.stored)
      ensures step == if ichar == 3 as char then Break else Continue
      ensures step.Break? ==> buf[0] == 0 as char
      ensures step.Continue? ==>
        && Now() == Press(old(Now()), ichar, len, Recalled(old(log.stored), old(log.pos), ichar == Ctl('p')))
        && log.pos == (if ichar == Ctl('p') || ichar == Ctl('n')
                       then Browsed(old(log.stored), old(log.pos), ichar == Ctl('p'))
                       else old(log.pos))
        && (old(Shown()) && (IsEditKey(ichar) || Displayable(ichar)) ==> Shown())
    {
      hide Replay, Shows, Holds;
      step := Continue;
      if ichar == Ctl('a') {
        Home();
      } else if ichar == Ctl('c') {
        buf[0] := 0 as char;
        return Break;
      } else if ichar == Ctl('f') {
        if num < eolNum {
          Advance(num + 1);
        }
      } else if ichar == Ctl('b') {
        if num > 0 {
          Left();
        }
      } else if ichar == Ctl('d') {
        if num < eolNum {
          DeleteHere();
        }
      } else if ichar == Ctl('k') {
        EraseToEol();
      } else if ichar == Ctl('e') {
        Advance(eolNum);
      } else if ichar == Ctl('o') {
        insert := !insert;
      } else if ichar == Ctl('x') || ichar == Ctl('u') {
        EraseLine();
      } else if ichar == DEL || ichar == DEL7 || ichar == BACKSPACE {
        if num > 0 {
          Rubout();
        }
      } else if ichar == Ctl('p') || ichar == Ctl('n') {
        Browse(ichar == Ctl('p'));
      } else {
        AddKey(ichar);
      }
    }

    /** cread_add_str */
    method AddKeys(s: string)
      requires Valid()
      modifies this, buf
      ensures Valid() && escLen == old(escLen) && Now() == AddChars(old(Now()), s, len)
      ensures old(Shown()) && AllDisplayable(s) ==> Shown()
    {
      hide Replay, Shows, Holds, AddChar;
      for i := 0 to |s|
        invariant Valid() && escLen == old(escLen) && Now() == AddChars(old(Now()), s[..i], len)
        invariant old(Shown()) && AllDisplayable(s) ==> Shown()
      {
        AddKey(s[i]);
        assert s[..i + 1][..i] == s[..i];
      }
      assert s[..|s|] == s;
    }

    /**
      One byte of input.  The switch is entered only with escLen == 0: the
      message "impossible condition #876" would need an ESC with escLen != 0,
      and the assertion in front of the switch excludes it for every input.
     */
    method ReadByte(ichar: char) returns (step: Step)
      requires Valid()
      modifies this, buf, log
      ensures Valid() && log.stored == old(log.stored)
      ensures step == if ichar == '\n' || ichar == '\r' then Enter
                      else if old(escLen) == 0 && ichar == 3 as char then Break else Continue
      ensures step.Break? ==> buf[0] == 0 as char
      ensures step.Enter? ==> Now() == old(Now()) && log.pos == old(log.pos)
      ensures step.Continue? ==> escLen == EscAfter(old(escLen), ichar)
      ensures step.Continue? ==>
        Session(Now(), escLen, log.pos) == PlayByte(old(Session(Now(), escLen, log.pos)), ichar, len, old(log.stored))
      ensures step.Continue? && Tame(old(escLen), [ichar]) && old(Shown()) ==> Shown()
    {
      hide Replay, Shows, Holds, Press, Recalled;
      assert [ichar][1..] == "";
      if ichar == '\n' || ichar == '\r' {
        return Enter;
      }
      var c := ichar;
      step := Continue;
      if escLen != 0 {
        if escLen == 1 {
          if ichar == '[' {
            escLen := 2;
          } else {
            AddKeys([ESC]);
            escLen := 0;
          }
          return;
        }
        escLen := 0;
        if ArrowKey(ichar).None? {
          AddKeys([ESC, '[', ichar]);
          return;
        }
        c := ArrowKey(ichar).value;
      }
      assert escLen == 0;
      if c == ESC {
        escLen := 1;
      } else {
        step := PressKey(c);
      }
    }

    /**
      Any bytes up to the end of the line; the display follows every run of
      printable, cursor, editing and history keys.
     */
    method ReadBytes(input: string)
      requires Valid() && Lasts(escLen, input)
      modifies this, buf, log
      ensures Valid() && log.stored == old(log.stored)
      ensures old(Shown()) && Tame(old(escLen), input) ==> Shown()
      ensures Session(Now(), escLen, log.pos) ==
          Played(old(Session(Now(), escLen, log.pos)), input, len, old(log.stored))
    {
      hide Replay, Shows, Holds, PlayByte, Played, Tame;
      var i := 0;
      ghost var shown := Shown() && Tame(escLen, input);
      ghost var goal := Played(Session(Now(), escLen, log.pos), input, len, log.stored);
      assert input[0..] == input;
      PlayedNothing(len, log.stored);
      while i < |input|
        invariant 0 <= i <= |input| && Valid() && log.stored == old(log.stored)
        invariant Lasts(escLen, input[i..]) && (shown ==> Shown() && Tame(escLen, input[i..]))
        invariant Played(Session(Now(), escLen, log.pos), input[i..], len, log.stored) == goal
        decreases |input| - i
      {
        if shown {
          TameStep(escLen, input[i..]);
        }
        PlayedStep(Session(Now(), escLen, log.pos), input[i..], len, log.stored);
        assert input[i..][1..] == input[i + 1..] && input[i..][0] == input[i];
        var _ := ReadByte(input[i]);
        i := i + 1;
      }
      assert input[i..] == "";
    }

    /** A whole line: keys, then the end of line; the line enters the history. */
    method ReadLine(input: string) returns (n: nat)
      requires Valid() && Shown() && Tame(escLen, input)
      modifies this, buf, log
      ensures Valid() && eolNum == n && buf[n] == 0 as char
      ensures Line() == Played(old(Session(Now(), escLen, log.pos)), input, len, old(log.stored)).edit.line
      ensures log.stored == old(log.stored) + (if Line() != "" && Line()[0] != '!' then [Line()] else [])
      ensures log.pos == Some(0)
    {
      hide Replay, Shows, Holds;
      TameLasts(escLen, input);
      ReadBytes(input);
      var _ := ReadByte('\n');
      out := out + ['\n'];
      n := eolNum;
      ghost var line := Line();
      buf[eolNum] := 0 as char;
      assert Line() == line;
      log.Finish(buf[..eolNum]);
    }
  }
}
