/**
  The keys of the line editor, by the bytes they arrive as, on a line that is
  split at the cursor and a history that is walked back and forth: what
  cread_line promises its user, without buffer, escape states or control codes.
 */
module EditorKeys {
  import opened Options
  import opened Terminal
  import opened LineEditor

  datatype Stroke =
    | Left | Right | Home | End | Up | Down
    | Delete | Backspace | Kill | Clear | Mode | Print(c: char)

  /** The bytes that a terminal may send for a key. */
  predicate Sends(k: Stroke, b: seq<int>) {
    match k
    case Left => b == [2] || b == [27, 91, 68]
    case Right => b == [6] || b == [27, 91, 67]
    case Home => b == [1] || b == [27, 91, 72]
    case End => b == [5]
    case Up => b == [16] || b == [27, 91, 65]
    case Down => b == [14] || b == [27, 91, 66]
    case Delete => b == [4]
    case Backspace => b == [8] || b == [127] || b == [255]
    case Kill => b == [11]
    case Clear => b == [21] || b == [24]
    case Mode => b == [15]
    case Print(c) => ' ' <= c <= '~' && b == [c as int]
  }

  /**
    The text in front of the cursor and behind it, the insert mode, and how many
    steps back in the history the line stands; None before the first line.
   */
  datatype Sheet = Sheet(left: string, right: string, insert: bool, back: Option<nat>)

  /** The lines that can be recalled, the most recent first: never more than 19. */
  function Past(stored: seq<string>): seq<string> {
    var n := if |stored| < 19 then |stored| else 19;
    seq(n, i requires 0 <= i < n => stored[|stored| - 1 - i])
  }

  /** What a key does on a line of at most len characters. */
  function Apply(s: Sheet, k: Stroke, len: nat, past: seq<string>): Sheet {
    var a, b := |s.left|, |s.right|;
    match k
    case Left => if a == 0 then s else s.(left := s.left[..a - 1], right := [s.left[a - 1]] + s.right)
    case Right => if b == 0 then s else s.(left := s.left + [s.right[0]], right := s.right[1..])
    case Home => s.(left := "", right := s.left + s.right)
    case End => s.(left := s.left + s.right, right := "")
    case Up =>
      if s.back.None? || s.back.value >= |past| then s
      else s.(left := past[s.back.value], right := "", back := Some(s.back.value + 1))
    case Down =>
      if s.back.None? || s.back.value == 0 || s.back.value > |past| then s
      else
        var line := if s.back.value == 1 then "" else past[s.back.value - 2];
        s.(left := line, right := "", back := Some(s.back.value - 1))
    case Delete => if b == 0 then s else s.(right := s.right[1..])
    case Backspace => if a == 0 then s else s.(left := s.left[..a - 1])
    case Kill => s.(right := "")
    case Clear => s.(left := "", right := "")
    case Mode => s.(insert := !s.insert)
    case Print(c) =>
      if s.insert || b == 0 then if a + b >= len then s else s.(left := s.left + [c])
      else s.(left := s.left + [c], right := s.right[1..])
  }

  function ApplyAll(s: Sheet, ks: seq<Stroke>, len: nat, past: seq<string>): Sheet
    decreases |ks|
  {
    if ks == [] then s else ApplyAll(Apply(s, ks[0], len, past), ks[1..], len, past)
  }

  function Text(b: seq<int>): string
    requires forall i :: 0 <= i < |b| ==> 0 <= b[i] < 256
  {
    seq(|b|, i requires 0 <= i < |b| => b[i] as char)
  }

  /** The session between two keys that the sheet shows. */
  predicate Shows(s: Session, z: Sheet, past: seq<string>) {
    && s.edit == Edit(z.left + z.right, |z.left|, z.insert) && s.escLen == 0 && s.pos == z.back
    && (z.back.Some? ==> z.back.value <= |past|)
  }

  lemma PlayedFirst(s: Session, c: char, rest: string, len: nat, stored: seq<string>)
    requires s.edit.cur <= |s.edit.line|
    ensures Played(s, [c] + rest, len, stored) == Played(PlayByte(s, c, len, stored), rest, len, stored)
  {
    assert ([c] + rest)[1..] == rest;
  }

  /** A control code or a printable character, read outside an escape sequence. */
  lemma CodeRead(s: Session, c: int, rest: string, len: nat, stored: seq<string>)
    requires s.edit.cur <= |s.edit.line| && s.escLen == 0 && 0 <= c < 256 && c != 27
    ensures var older := c == 16;
      var s' := Session(Press(s.edit, c as char, len, Recalled(stored, s.pos, older)), 0,
                        if older || c == 14 then Browsed(stored, s.pos, older) else s.pos);
      Played(s, [c as char] + rest, len, stored) == Played(s', rest, len, stored)
  {
    hide Press, Recalled, Browsed;
    PlayedFirst(s, c as char, rest, len, stored);
  }

  /** ESC, `[` and a letter are read as a control code. */
  lemma EscapeRead(s: Session, letter: int, c: int, rest: string, len: nat, stored: seq<string>)
    requires s.edit.cur <= |s.edit.line| && s.escLen == 0
    requires (letter, c) in [(68, 2), (67, 6), (72, 1), (65, 16), (66, 14)]
    ensures Played(s, Text([27, 91, letter]) + rest, len, stored) == Played(s, [c as char] + rest, len, stored)
  {
    hide Press, Recalled, Browsed;
    var s1, s2 := s.(escLen := 1), s.(escLen := 2);
    var t := Text([27, 91, letter]) + rest;
    assert t == [27 as char] + (['['] + ([letter as char] + rest));
    PlayedFirst(s, 27 as char, ['['] + ([letter as char] + rest), len, stored);
    assert PlayByte(s, 27 as char, len, stored) == s1;
    PlayedFirst(s1, '[', [letter as char] + rest, len, stored);
    assert PlayByte(s1, '[', len, stored) == s2;
    PlayedFirst(s2, letter as char, rest, len, stored);
    PlayedFirst(s, c as char, rest, len, stored);
  }

  /** One key: the session shows what the key does to the sheet. */
  lemma StrokeRead(s: Session, z: Sheet, k: Stroke, b: seq<int>, rest: string, len: nat, stored: seq<string>)
    returns (s': Session)
    requires Shows(s, z, Past(stored)) && Sends(k, b)
    ensures Shows(s', Apply(z, k, len, Past(stored)), Past(stored))
    ensures s'.edit.cur <= |s'.edit.line| && Played(s, Text(b) + rest, len, stored) == Played(s', rest, len, stored)
  {
    var c := if |b| == 1 then b[0] else if b[2] == 68 then 2 else if b[2] == 67 then 6 else if b[2] == 72 then 1
             else if b[2] == 65 then 16 else 14;
    var older := c == 16;
    s' := Session(Press(s.edit, c as char, len, Recalled(stored, s.pos, older)), 0,
                  if older || c == 14 then Browsed(stored, s.pos, older) else s.pos);
    CodeRead(s, c, rest, len, stored);
    if |b| == 1 {
      assert Text(b) == [c as char];
    } else {
      EscapeRead(s, b[2], c, rest, len, stored);
      assert b == [27, 91, b[2]];
    }
    hide Played, Press, Recalled, Browsed, Apply;
    StrokePressed(z, k, c, len, stored);
  }

  /** A sequence that is no cursor key is typed: ESC alone, without the byte behind it, or all three bytes. */
  lemma BrokenRead(s: Session, c: int, len: nat, stored: seq<string>)
    requires s.edit.cur <= |s.edit.line| && s.escLen == 0 && 0 <= c < 256
    ensures c != 91 ==>
      Played(s, Text([27, c]), len, stored) == s.(edit := AddChars(s.edit, Text([27]), len))
    ensures c !in {65, 66, 67, 68, 72} ==>
      Played(s, Text([27, 91, c]), len, stored) == s.(edit := AddChars(s.edit, Text([27, 91, c]), len))
  {
    assert AddChars(s.edit, "", len) == s.edit;
    hide Press, Recalled, Browsed, AddChars;
    var s1, s2, ch := s.(escLen := 1), s.(escLen := 2), c as char;
    assert Text([27, c]) == [27 as char] + ([ch] + "") && Text([27]) == [ESC];
    assert Text([27, 91, c]) == [27 as char] + (['['] + ([ch] + "")) && Text([27, 91, c]) == [ESC, '[', ch];
    PlayedFirst(s, 27 as char, [ch] + "", len, stored);
    PlayedFirst(s, 27 as char, ['['] + ([ch] + ""), len, stored);
    PlayedFirst(s1, ch, "", len, stored);
    PlayedFirst(s1, '[', [ch] + "", len, stored);
    PlayedFirst(s2, ch, "", len, stored);
  }

  function Joined(z: Sheet): Edit {
    Edit(z.left + z.right, |z.left|, z.insert)
  }

  lemma MovePressed(z: Sheet, k: Stroke, c: int, len: nat, past: seq<string>, recalled: Option<string>)
    requires (k.Left? || k.Right? || k.Home? || k.End?) && Sends(k, [c])
    ensures Press(Joined(z), c as char, len, recalled) == Joined(Apply(z, k, len, past))
    ensures Apply(z, k, len, past).back == z.back
  {
    var z' := Apply(z, k, len, past);
    assert z'.left + z'.right == z.left + z.right;
  }

  lemma DeletePressed(z: Sheet, c: int, len: nat, past: seq<string>, recalled: Option<string>)
    requires Sends(Delete, [c])
    ensures Press(Joined(z), c as char, len, recalled) == Joined(Apply(z, Delete, len, past))
  {
    var line, n := z.left + z.right, |z.left|;
    if z.right != "" {
      assert Without(line, n) == z.left + z.right[1..];
    }
    hide Without;
  }

  lemma BackspacePressed(z: Sheet, c: int, len: nat, past: seq<string>, recalled: Option<string>)
    requires Sends(Backspace, [c])
    ensures Press(Joined(z), c as char, len, recalled) == Joined(Apply(z, Backspace, len, past))
  {
    var line, n := z.left + z.right, |z.left|;
    if n > 0 {
      assert Without(line, n - 1) == z.left[..n - 1] + z.right;
    }
    hide Without;
  }

  lemma CutPressed(z: Sheet, k: Stroke, c: int, len: nat, past: seq<string>, recalled: Option<string>)
    requires (k.Delete? || k.Backspace? || k.Kill? || k.Clear? || k.Mode?) && Sends(k, [c])
    ensures Press(Joined(z), c as char, len, recalled) == Joined(Apply(z, k, len, past))
    ensures Apply(z, k, len, past).back == z.back
  {
    var line, n := z.left + z.right, |z.left|;
    match k
    case Delete => hide Press; DeletePressed(z, c, len, past, recalled);
    case Backspace => hide Press; BackspacePressed(z, c, len, past, recalled);
    case Kill => assert line[..n] == z.left == z.left + "";
    case Clear => assert "" + "" == "";
    case Mode =>
  }

  lemma PrintPressed(z: Sheet, k: Stroke, c: int, len: nat, past: seq<string>, recalled: Option<string>)
    requires k.Print? && Sends(k, [c])
    ensures Press(Joined(z), c as char, len, recalled) == Joined(Apply(z, k, len, past))
    ensures Apply(z, k, len, past).back == z.back
  {
    var line, n := z.left + z.right, |z.left|;
    assert Press(Joined(z), c as char, len, recalled) == AddChar(Joined(z), k.c, len);
    hide Press;
    if z.insert || z.right == "" {
      assert line[..n] + [k.c] + line[n..] == (z.left + [k.c]) + z.right;
    } else {
      assert line[n := k.c] == (z.left + [k.c]) + z.right[1..];
    }
  }

  lemma RecallPressed(z: Sheet, k: Stroke, c: int, len: nat, stored: seq<string>)
    requires (k.Up? || k.Down?) && Sends(k, [c]) && (z.back.Some? ==> z.back.value <= |Past(stored)|)
    ensures var z' := Apply(z, k, len, Past(stored));
      && Press(Joined(z), c as char, len, Recalled(stored, z.back, k.Up?)) == Joined(z')
      && Browsed(stored, z.back, k.Up?) == z'.back && (z'.back.Some? ==> z'.back.value <= |Past(stored)|)
  {
    RecallIsPast(stored, z.back, k.Up?);
    hide Recalled, Browsed, Past;
    var z' := Apply(z, k, len, Past(stored));
    assert z'.left + "" == z'.left;
  }

  /** The control code of a key, pressed on the line, does what the key does to the sheet. */
  lemma StrokePressed(z: Sheet, k: Stroke, c: int, len: nat, stored: seq<string>)
    requires Sends(k, [c]) && (z.back.Some? ==> z.back.value <= |Past(stored)|)
    ensures var older, z' := c == 16, Apply(z, k, len, Past(stored));
      && Press(Joined(z), c as char, len, Recalled(stored, z.back, older)) == Joined(z')
      && (if older || c == 14 then Browsed(stored, z.back, older) else z.back) == z'.back
      && (z'.back.Some? ==> z'.back.value <= |Past(stored)|)
  {
    var past, recalled := Past(stored), Recalled(stored, z.back, c == 16);
    match k
    case Up => RecallPressed(z, k, c, len, stored);
    case Down => RecallPressed(z, k, c, len, stored);
    case Print(_) => hide Press, Apply; PrintPressed(z, k, c, len, past, recalled);
    case _ =>
      hide Press, Apply;
      if k.Left? || k.Right? || k.Home? || k.End? {
        MovePressed(z, k, c, len, past, recalled);
      } else {
        CutPressed(z, k, c, len, past, recalled);
      }
  }

  lemma RecallIsPast(stored: seq<string>, pos: Option<nat>, older: bool)
    requires pos.Some? ==> pos.value <= |Past(stored)|
    ensures pos.None? ==> Recalled(stored, pos, older) == None && Browsed(stored, pos, older) == None
    ensures pos.Some? && older ==>
      if pos.value < |Past(stored)|
      then Recalled(stored, pos, older) == Some(Past(stored)[pos.value])
           && Browsed(stored, pos, older) == Some(pos.value + 1)
      else Recalled(stored, pos, older) == None && Browsed(stored, pos, older) == pos
    ensures pos.Some? && !older ==>
      if pos.value > 0
      then Recalled(stored, pos, older) == Some(if pos.value == 1 then "" else Past(stored)[pos.value - 2])
           && Browsed(stored, pos, older) == Some(pos.value - 1)
      else Recalled(stored, pos, older) == None && Browsed(stored, pos, older) == pos
  {
  }

  /** The bytes of a run of keys. */
  function Typed(bs: seq<seq<int>>): string
    requires forall i, j :: 0 <= i < |bs| && 0 <= j < |bs[i]| ==> 0 <= bs[i][j] < 256
  {
    if bs == [] then "" else Text(bs[0]) + Typed(bs[1..])
  }

  predicate SendsAll(ks: seq<Stroke>, bs: seq<seq<int>>) {
    |ks| == |bs| && forall i :: 0 <= i < |ks| ==> Sends(ks[i], bs[i])
  }

  /** Any run of keys, each sent in any of its ways, edits the line as the keys say. */
  lemma {:induction false} StrokesRead(
      s: Session, z: Sheet, ks: seq<Stroke>, bs: seq<seq<int>>, len: nat, stored: seq<string>)
    requires Shows(s, z, Past(stored)) && SendsAll(ks, bs)
    ensures Shows(Played(s, Typed(bs), len, stored), ApplyAll(z, ks, len, Past(stored)), Past(stored))
    decreases |ks|
  {
    if ks != [] {
      hide Apply, Played, Past;
      var s' := StrokeRead(s, z, ks[0], bs[0], Typed(bs[1..]), len, stored);
      StrokesRead(s', Apply(z, ks[0], len, Past(stored)), ks[1..], bs[1..], len, stored);
    }
  }

  lemma TameFirst(escLen: nat, c: char, rest: string)
    requires c != '\n' && c != '\r' && Tame(EscAfter(escLen, c), rest)
    requires EscAfter(escLen, c) > 0
      || (Key(escLen, c).Some? && (IsEditKey(Key(escLen, c).value) || Displayable(Key(escLen, c).value)))
    ensures Tame(escLen, [c] + rest)
  {
    assert ([c] + rest)[1..] == rest;
  }

  lemma StrokeTame(k: Stroke, b: seq<int>, rest: string)
    requires Sends(k, b) && Tame(0, rest)
    ensures Tame(0, Text(b) + rest)
  {
    hide Tame;
    if |b| == 1 {
      assert Text(b) == [b[0] as char];
      TameFirst(0, b[0] as char, rest);
    } else {
      var c := b[2] as char;
      assert Text(b) + rest == [27 as char] + (['['] + ([c] + rest));
      TameFirst(2, c, rest);
      TameFirst(1, '[', [c] + rest);
      TameFirst(0, 27 as char, ['['] + ([c] + rest));
    }
  }

  /** Such runs are in the scope of the display theorem. */
  lemma {:induction false} StrokesTame(ks: seq<Stroke>, bs: seq<seq<int>>)
    requires SendsAll(ks, bs)
    ensures Tame(0, Typed(bs))
    decreases |ks|
  {
    if ks != [] {
      StrokesTame(ks[1..], bs[1..]);
      StrokeTame(ks[0], bs[0], Typed(bs[1..]));
    }
  }
}
