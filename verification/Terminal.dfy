/**
  A one-line terminal, as the line editor of cli_readline.c uses it: characters
  overwrite the cell under the cursor, backspace moves the cursor left, the bell
  does nothing.
 */
module Terminal {

  /** Columns count from the end of the prompt; strayed: the cursor was driven into the prompt. */
  datatype Term = Term(cells: int -> char, cur: int, strayed: bool)

  const BACKSPACE: char := 8 as char
  const BELL: char := 7 as char

  /** Characters that a terminal shows in one cell. */
  predicate Displayable(c: char) { ' ' <= c <= '~' }

  predicate AllDisplayable(s: string) { forall i :: 0 <= i < |s| ==> Displayable(s[i]) }

  function Type(t: Term, c: char): Term {
    if c == BACKSPACE then if t.cur > 0 then t.(cur := t.cur - 1) else t.(strayed := true)
    else if c == BELL then t
    else Term(x => if x == t.cur then c else t.cells(x), t.cur + 1, t.strayed)
  }

  function Replay(t: Term, bytes: string): Term {
    if bytes == "" then t else Type(Replay(t, bytes[..|bytes| - 1]), bytes[|bytes| - 1])
  }

  const BLANK := Term(x => ' ', 0, false)

  /** The terminal shows the line, then blanks, with the cursor at column cur. */
  ghost predicate Shows(t: Term, line: string, cur: int) {
    && !t.strayed && t.cur == cur
    && (forall x :: 0 <= x < |line| ==> t.cells(x) == line[x])
    && (forall x :: |line| <= x ==> t.cells(x) == ' ')
  }

  lemma {:induction false} ReplayCat(t: Term, a: string, b: string)
    ensures Replay(t, a + b) == Replay(Replay(t, a), b)
    decreases |b|
  {
    if b == "" {
      assert a + b == a;
    } else {
      assert (a + b)[..|a + b| - 1] == a + b[..|b| - 1];
      ReplayCat(t, a, b[..|b| - 1]);
    }
  }

  lemma {:induction false} ReplayText(t: Term, s: string)
    requires AllDisplayable(s)
    ensures var r := Replay(t, s);
      && r.cur == t.cur + |s| && r.strayed == t.strayed
      && forall x :: r.cells(x) == if t.cur <= x < t.cur + |s| then s[x - t.cur] else t.cells(x)
    decreases |s|
  {
    if s != "" {
      ReplayText(t, s[..|s| - 1]);
    }
  }

  function Times(n: nat, c: char): string { seq(n, i => c) }

  lemma {:induction false} ReplayBack(t: Term, n: nat)
    requires n <= t.cur
    ensures Replay(t, Times(n, BACKSPACE)) == t.(cur := t.cur - n)
    decreases n
  {
    if n > 0 {
      assert Times(n, BACKSPACE)[..n - 1] == Times(n - 1, BACKSPACE);
      ReplayBack(t, n - 1);
    }
  }

  /** A backspace too many drives the cursor into the prompt, and that is never forgotten. */
  lemma {:induction false} Strays(t: Term, n: nat, rest: string)
    requires 0 <= t.cur < n
    ensures Replay(t, Times(n, BACKSPACE) + rest).strayed
    decreases |rest|, n
  {
    var s := Times(n, BACKSPACE) + rest;
    if rest != "" {
      assert s[..|s| - 1] == Times(n, BACKSPACE) + rest[..|rest| - 1];
      Strays(t, n, rest[..|rest| - 1]);
    } else {
      assert s[..|s| - 1] == Times(n - 1, BACKSPACE) + "" == Times(n - 1, BACKSPACE);
      if n - 1 > t.cur {
        Strays(t, n - 1, "");
      } else {
        ReplayBack(t, n - 1);
      }
    }
  }

  /**
    Redrawing from the cursor: emit the new line's characters up to column e,
    then k blanks, then m backspaces.  The new line is shown if it agrees with
    the old one in front of the cursor and behind e, and the blanks cover what
    is left of the old one.
   */
  lemma Redraw(t: Term, line: string, cur: nat, line': string, e: nat, k: nat, m: nat)
    requires Shows(t, line, cur) && cur <= e <= |line'| && cur <= |line| && m <= e + k
    requires AllDisplayable(line') && line'[..cur] == line[..cur]
    requires (e == |line'| && |line'| + k >= |line|) || (k == 0 && |line| == |line'| && line'[e..] == line[e..])
    ensures Shows(Replay(t, line'[cur..e] + Times(k, ' ') + Times(m, BACKSPACE)), line', e + k - m)
  {
    var s := line'[cur..e] + Times(k, ' ');
    ReplayCat(t, s, Times(m, BACKSPACE));
    ReplayText(t, s);
    var r := Replay(t, s);
    ReplayBack(r, m);
    forall x | 0 <= x < |line'|
      ensures r.cells(x) == line'[x]
    {
      if x < cur {
        assert line'[..cur][x] == line[..cur][x];
      } else if e <= x {
        assert line'[e..][x - e] == line[e..][x - e];
      }
    }
    forall x | |line'| <= x
      ensures r.cells(x) == ' '
    {
    }
  }
}
