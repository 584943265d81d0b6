/**
  Variable substitution: insert_var_value_sub, lookup_param and make_list_in.
  Variable names stand between marker characters; each lookup happens in the
  caller's buffer, which is cut with NULs and put back.
 */
module HushSubst {
  import opened Options
  import opened Strings
  import opened HushVariables
  import HushMachine

  /** The environment, the shell's variables and the last return code. */
  datatype World = World(env: map<string, string>, vars: seq<Variable>, code: nat)

  // ----- lookup_param -----

  function PlainValue(w: World, name: string): Option<string> {
    if name in w.env then Some(w.env[name])
    else if name != "" && name[0] == '$' then DollarVar(w.code, name[1..])
    else Lookup(w.vars, name)
  }

  /** NAME, or NAME:-DEFAULT, NAME:=DEFAULT, NAME:+DEFAULT; other characters behind a colon are ignored. */
  function LookupParam(w: World, src: string): (Option<string>, World) {
    var sep := Find(src, ':');
    var name, op := src[..sep], if sep + 1 < |src| then src[sep + 1] else NUL;
    var default := if op == '-' || op == '=' || op == '+' then Some(src[sep + 2..]) else None;
    var p := PlainValue(w, name);
    if p.None? || p.value == "" then
      (default, if op == '=' then w.(vars := SetVar(w.vars, name + "=" + src[sep + 2..], 0, w.env).0) else w)
    else if op == '+' then (Some(""), w)
    else (p, w)
  }

  // ----- insert_var_value_sub -----

  /** A looked-up value as it enters the result; a missing one leaves nothing. */
  function Inserted(v: Option<string>, tag: bool): string {
    if v.None? then "" else if tag then [SUBSTED] + v.value + [SUBSTED] else v.value
  }

  /** The text in front of the first marker, between the first two, and behind them. */
  function Lit(s: string): string { s[..Find(s, MARKER)] }

  function Behind(s: string): string
    requires Find(s, MARKER) < |s|
  {
    s[Find(s, MARKER) + 1..]
  }

  predicate HasSlot(s: string) {
    Find(s, MARKER) < |s| && Find(Behind(s), MARKER) < |Behind(s)|
  }

  function Name(s: string): string
    requires HasSlot(s)
  {
    Lit(Behind(s))
  }

  function Rest(s: string): (r: string)
    requires HasSlot(s)
    ensures |r| == |s| - |Lit(s)| - |Name(s)| - 2
    ensures r == s[|Lit(s)| + |Name(s)| + 2..]
  {
    Behind(Behind(s))
  }

  /** Markers come in pairs. */
  predicate Paired(s: string)
    decreases |s|
  {
    Find(s, MARKER) == |s| || (HasSlot(s) && Paired(Rest(s)))
  }

  /** The text with every marked name replaced, and the world after the lookups. */
  function Substituted(w: World, s: string, tag: bool): (string, World)
    requires Paired(s)
    decreases |s|
  {
    if Find(s, MARKER) == |s| then (s, w)
    else
      var (v, w1) := LookupParam(w, Name(s));
      var (r, w2) := Substituted(w1, Rest(s), tag);
      (Lit(s) + Inserted(v, tag) + r, w2)
  }

  function Despaced(s: string): string {
    seq(|s|, i requires 0 <= i < |s| => if s[i] == '\n' then ' ' else s[i])
  }

  /** The returned string: newlines become spaces, but only if something was substituted. */
  function InsertVarValue(w: World, s: string, tag: bool): (string, World)
    requires Paired(s)
  {
    var (r, w') := Substituted(w, s, tag);
    (if Find(s, MARKER) < |s| then Despaced(r) else s, w')
  }

  // ----- templates: what a marked text means -----

  datatype Template = Text(lit: string) | Slot(lit: string, name: string, rest: Template)

  predicate MarkerFree(s: string) { MARKER !in s }

  predicate WellFormed(t: Template) {
    match t
    case Text(lit) => MarkerFree(lit)
    case Slot(lit, name, rest) => MarkerFree(lit) && MarkerFree(name) && WellFormed(rest)
  }

  function Marked(t: Template): string {
    match t
    case Text(lit) => lit
    case Slot(lit, name, rest) => lit + ([MARKER] + (name + ([MARKER] + Marked(rest))))
  }

  /** Literal segments interleaved with values, looked up left to right. */
  function Filled(w: World, t: Template, tag: bool): (string, World)
    decreases t
  {
    match t
    case Text(lit) => (lit, w)
    case Slot(lit, name, rest) =>
      var (v, w1) := LookupParam(w, name);
      var (r, w2) := Filled(w1, rest, tag);
      var value := if v.None? then "" else if tag then [SUBSTED] + v.value + [SUBSTED] else v.value;
      (lit + value + r, w2)
  }

  // ----- the operators, against section 2.6.2 of POSIX.1-2017 Shell Command Language -----

  /** `${name:-word}`, `${name:=word}`, `${name:+word}` for a parameter whose value is p. */
  function PosixValue(p: Option<string>, op: char, word: string): string {
    var usable := p.Some? && p.value != "";
    if op == '+' then if usable then word else ""
    else if usable then p.value else word
  }

  function Param(name: string, op: char, word: string): string {
    name + ([':'] + ([op] + word))
  }

  /** The text that a lookup inserts. */
  function LookupText(w: World, src: string): string {
    Inserted(LookupParam(w, src).0, false)
  }

  lemma ParamSplit(name: string, op: char, word: string)
    requires ':' !in name
    ensures var src := Param(name, op, word);
      Find(src, ':') == |name| && src[..|name|] == name && src[|name| + 1] == op && src[|name| + 2..] == word
  {
    FindBehind(name, ':', [op] + word);
  }

  /** w.vars[i] is the first entry of that name. */
  predicate IsFirst(vars: seq<Variable>, name: string, i: nat) {
    i < |vars| && vars[i].name == name && forall j :: 0 <= j < i ==> vars[j].name != name
  }

  /**
    A parameter without operator: the environment's value, else the last return
    code in decimal for `$?`, else the value of the shell's variable, else
    nothing; and nothing changes.
   */
  lemma PlainLookup(w: World, name: string)
    requires ':' !in name
    ensures LookupParam(w, name).1 == w
    ensures name in w.env ==> LookupText(w, name) == w.env[name]
    ensures name !in w.env && |name| >= 2 && name[..2] == "$?" ==> Spells(LookupText(w, name), w.code)
    ensures name !in w.env && name != "" && name[0] == '$' && (|name| == 1 || name[1] != '?') ==>
      LookupText(w, name) == ""
    ensures name !in w.env && (name == "" || name[0] != '$') ==>
      && (forall i: nat :: IsFirst(w.vars, name, i) ==> LookupText(w, name) == w.vars[i].value)
      && ((forall v :: v in w.vars ==> v.name != name) ==> LookupText(w, name) == "")
  {
    FindNone(name, ':');
    assert name[..|name|] == name;
    DecimalSpells(w.code);
    forall i: nat | IsFirst(w.vars, name, i)
      ensures Lookup(w.vars, name) == Some(w.vars[i].value)
    {
      IndexIs(w.vars, name, i);
    }
  }

  /** `:-` and `:=` insert what POSIX demands. */
  lemma DefaultIsPosix(w: World, name: string, op: char, word: string)
    requires ':' !in name && (op == '-' || op == '=')
    ensures LookupText(w, Param(name, op, word)) == PosixValue(PlainValue(w, name), op, word)
  {
    ParamSplit(name, op, word);
  }

  /** `:+` inserts the word where POSIX inserts nothing, and nothing where POSIX inserts the word. */
  lemma AlternativeIffEmpty(w: World, name: string, word: string)
    requires ':' !in name
    ensures LookupText(w, Param(name, '+', word)) == PosixValue(PlainValue(w, name), '+', word) <==> word == ""
  {
    ParamSplit(name, '+', word);
  }

  /** `${x:+d}` with x set to v: POSIX inserts d, the shell nothing; without x it is the other way round. */
  lemma AlternativeReversed()
    ensures var with, without := World(map["x" := "v"], [], 0), World(map[], [], 0);
      && LookupText(with, "x:+d") == "" && PosixValue(PlainValue(with, "x"), '+', "d") == "d"
      && LookupText(without, "x:+d") == "d" && PosixValue(PlainValue(without, "x"), '+', "d") == ""
  {
    var with, without := World(map["x" := "v"], [], 0), World(map[], [], 0);
    assert "x:+d" == Param("x", '+', "d");
    ParamSplit("x", '+', "d");
    assert PlainValue(with, "x") == Some("v") && PlainValue(without, "x") == None;
  }

  /**
    The assignment of `:=` is seen by later lookups exactly when the word is empty
    or the store takes it: no environment variable of that name hides it, the name
    starts with a letter and has no `=`, and the whole text names no environment
    variable.
   */
  lemma AssignSeenIff(w: World, name: string, word: string)
    requires ':' !in name && WellKept(w.vars)
    requires var p := PlainValue(w, name); p.None? || p.value == ""
    ensures var w' := LookupParam(w, Param(name, '=', word)).1;
      Inserted(PlainValue(w', name), false) == word
      <==> word == "" || (name !in w.env && StartsAlpha(name) && '=' !in name && name + "=" + word !in w.env)
  {
    AssignDone(w, name, word);
    hide LookupParam, SetVar, Find;
    if name == VERSION.name {
      IndexIs(w.vars, name, 0);
      assert name in w.env;
    } else {
      AssignStored(w, name, word);
    }
    hide Lookup, WellKept;
  }

  lemma AssignDone(w: World, name: string, word: string)
    requires ':' !in name
    requires var p := PlainValue(w, name); p.None? || p.value == ""
    ensures LookupParam(w, Param(name, '=', word)).1 == w.(vars := SetVar(w.vars, name + "=" + word, 0, w.env).0)
  {
    hide SetVar, PlainValue, Find;
    ParamSplit(name, '=', word);
  }

  /** What a lookup of the name finds behind a set call for NAME=WORD. */
  lemma AssignStored(w: World, name: string, word: string)
    requires WellKept(w.vars) && name != VERSION.name
    ensures var text := name + "=" + word;
      Lookup(SetVar(w.vars, text, 0, w.env).0, name)
      == if word != "" && StartsAlpha(name) && '=' !in name && text !in w.env then Some(word) else Lookup(w.vars, name)
  {
    var text := name + "=" + word;
    assert text == name + (['='] + word);
    SetLookup(w.vars, text, 0, w.env, name);
    hide SetVar, Lookup, WellKept;
    if '=' !in name {
      FindBehind(name, '=', word);
      assert text[..|name|] == name && text[|name| + 1..] == word;
    } else {
      EqualsInside(name, word);
    }
  }

  lemma EqualsInside(name: string, word: string)
    requires '=' in name
    ensures Find(name + "=" + word, '=') < |name|
  {
    var i :| 0 <= i < |name| && name[i] == '=';
    assert (name + "=" + word)[i] == '=';
  }

  /** Substitution in a marked text fills its template. */
  lemma {:induction false} TemplateFilled(w: World, t: Template, tag: bool)
    requires WellFormed(t)
    ensures Paired(Marked(t)) && Substituted(w, Marked(t), tag) == Filled(w, t, tag)
    decreases t
  {
    hide LookupParam, Find;
    var s := Marked(t);
    match t
    case Text(lit) => FindNone(lit, MARKER);
    case Slot(lit, name, rest) =>
      var s1 := name + ([MARKER] + Marked(rest));
      FindBehind(lit, MARKER, s1);
      FindBehind(name, MARKER, Marked(rest));
      assert Behind(s) == s1 && Lit(s) == lit;
      assert Name(s) == name && Rest(s) == Marked(rest);
      var (v, w1) := LookupParam(w, name);
      TemplateFilled(w1, rest, tag);
  }

  /** The returned string has no newline but in a text without parameters, which is returned as it is. */
  lemma InsertedFlat(w: World, t: Template, tag: bool)
    requires WellFormed(t)
    ensures Paired(Marked(t))
    ensures var (r, w') := Filled(w, t, tag);
      var (s, w'') := InsertVarValue(w, Marked(t), tag);
      && w'' == w' && |s| == |r|
      && forall i :: 0 <= i < |r| ==> s[i] == if r[i] == '\n' && t.Slot? then ' ' else r[i]
  {
    TemplateFilled(w, t, tag);
    match t
    case Text(lit) => FindNone(lit, MARKER);
    case Slot(lit, name, rest) => FindBehind(lit, MARKER, name + ([MARKER] + Marked(rest)));
  }

  // ----- make_list_in -----

  /** The maximal runs of non-blank characters. */
  function Fields(s: string): seq<string>
    decreases |s|
  {
    if s == "" then []
    else if s[0] == ' ' then Fields(s[1..])
    else var n := Find(s, ' '); [s[..n]] + Fields(s[n..])
  }

  predicate IsField(s: string) { s != "" && ' ' !in s }

  function Blanks(n: nat): string { seq(n, i => ' ') }

  /** Words joined with gaps of any widths, the first one possibly empty. */
  function Joined(ws: seq<string>, gaps: seq<nat>): string
    requires |gaps| == |ws| + 1
  {
    if ws == [] then Blanks(gaps[0])
    else Blanks(gaps[0]) + (ws[0] + Joined(ws[1..], gaps[1..]))
  }

  lemma {:induction false} BlanksSkipped(n: nat, s: string)
    ensures Fields(Blanks(n) + s) == Fields(s)
    decreases n
  {
    if n == 0 {
      assert Blanks(n) + s == s;
    } else {
      assert (Blanks(n) + s)[1..] == Blanks(n - 1) + s;
      BlanksSkipped(n - 1, s);
    }
  }

  /** However words are spaced, splitting gives the words back. */
  lemma {:induction false} FieldsOfJoined(ws: seq<string>, gaps: seq<nat>)
    requires |gaps| == |ws| + 1
    requires forall i :: 0 <= i < |ws| ==> IsField(ws[i])
    requires forall i :: 0 < i < |ws| ==> gaps[i] > 0
    ensures Fields(Joined(ws, gaps)) == ws
    decreases |ws|
  {
    if ws == [] {
      BlanksSkipped(gaps[0], "");
      assert Blanks(gaps[0]) + "" == Blanks(gaps[0]);
    } else {
      var rest := Joined(ws[1..], gaps[1..]);
      BlanksSkipped(gaps[0], ws[0] + rest);
      FieldsOfJoined(ws[1..], gaps[1..]);
      FieldEnds(ws[0], rest);
    }
  }

  lemma FieldEnds(w: string, rest: string)
    requires IsField(w) && (rest == "" || rest[0] == ' ')
    ensures Fields(w + rest) == [w] + Fields(rest)
  {
    if rest == "" {
      assert w + rest == w;
      FindNone(w, ' ');
      assert w[|w|..] == "";
    } else {
      assert [' '] + rest[1..] == rest;
      FindBehind(w, ' ', rest[1..]);
      assert (w + rest)[..|w|] == w && (w + rest)[|w|..] == rest;
    }
  }

  // ----- the C code, on NUL-terminated buffers -----

  /** buf holds the string s at lo, ended by a NUL. */
  ghost predicate Holds(buf: array<char>, lo: nat, s: string)
    reads buf
  {
    && lo + |s| < buf.Length && buf[lo + |s|] == NUL
    && forall k :: 0 <= k < |s| ==> buf[lo + k] == s[k] && s[k] != NUL
  }

  /** The same of the buffer's contents. */
  ghost predicate HoldsIn(mem: string, lo: nat, s: string) {
    && lo + |s| < |mem| && mem[lo + |s|] == NUL
    && forall k :: 0 <= k < |s| ==> mem[lo + k] == s[k] && s[k] != NUL
  }

  lemma HoldsBehind(buf: array<char>, lo: nat, s: string, n: nat)
    requires Holds(buf, lo, s) && n <= |s|
    ensures Holds(buf, lo + n, s[n..])
  {
    forall k | 0 <= k < |s[n..]|
      ensures buf[lo + n + k] == s[n..][k] && s[n..][k] != NUL
    {
      assert buf[lo + (n + k)] == s[n + k];
    }
  }

  /** strchr: position of the first c at or behind lo, or None before the NUL. */
  method StrChr(buf: array<char>, lo: nat, c: char, ghost s: string) returns (p: Option<nat>)
    requires Holds(buf, lo, s) && c != NUL
    ensures p == if Find(s, c) < |s| then Some(lo + Find(s, c)) else None
  {
    var i := lo;
    while buf[i] != NUL
      invariant lo <= i <= lo + |s| && (i < lo + |s| ==> buf[i] == s[i - lo])
      invariant i - lo + Find(s[i - lo..], c) == Find(s, c)
      decreases lo + |s| - i
    {
      if buf[i] == c {
        return Some(i);
      }
      assert s[i - lo..][1..] == s[i - lo + 1..];
      i := i + 1;
    }
    assert i == lo + |s|;
    p := None;
  }

  /** The string at lo, read up to its NUL. */
  method ReadString(buf: array<char>, lo: nat, ghost s: string) returns (r: string)
    requires Holds(buf, lo, s)
    ensures r == s
  {
    var i := lo;
    while buf[i] != NUL
      invariant lo <= i <= lo + |s| && (i < lo + |s| ==> buf[i] == s[i - lo])
      decreases lo + |s| - i
    {
      i := i + 1;
    }
    assert i == lo + |s|;
    r := buf[lo..i];
  }

  /** lookup_param's reading of NAME, operator and default; the buffer is cut at the colon and restored. */
  method ReadParam(buf: array<char>, lo: nat, ghost s: string) returns (name: string, op: char, default: Option<string>)
    requires Holds(buf, lo, s)
    modifies buf
    ensures buf[..] == old(buf[..])
    ensures var sep := Find(s, ':');
      && name == s[..sep]
      && op == (if sep + 1 < |s| then s[sep + 1] else NUL)
      && default == (if op == '-' || op == '=' || op == '+' then Some(s[sep + 2..]) else None)
  {
    var sep := StrChr(buf, lo, ':', s);
    ghost var n := Find(s, ':');
    default, op := None, NUL;
    if sep.Some? {
      var k := sep.value;
      op := buf[k + 1];
      assert n + 1 < |s| ==> s[n + 1] == buf[lo + (n + 1)];
      if op == '-' || op == '=' || op == '+' {
        HoldsBehind(buf, lo, s, n + 2);
        var d := ReadString(buf, k + 2, s[n + 2..]);
        default := Some(d);
      }
      buf[k] := NUL;
      name := ReadString(buf, lo, s[..n]);
      buf[k] := ':';
      assert buf[..] == old(buf[..]);
    } else {
      name := ReadString(buf, lo, s);
    }
  }

  /** lookup_param on the string at lo; `:=` stores the default. */
  method LookupInPlace(buf: array<char>, lo: nat, store: VariableList, env: map<string, string>, ghost s: string)
    returns (v: Option<string>)
    requires Holds(buf, lo, s) && store.Valid()
    modifies buf, store`vars
    ensures store.Valid() && buf[..] == old(buf[..])
    ensures (v, World(env, store.vars, store.lastReturnCode)) ==
        LookupParam(World(env, old(store.vars), store.lastReturnCode), s)
  {
    hide SetVar, Lookup, DollarVar, Find, WellKept;
    var name, op, default := ReadParam(buf, lo, s);
    if name in env {
      v := Some(env[name]);
    } else {
      v := store.GetLocalVar(name);
    }
    if v.None? || v.value == "" {
      v := default;
      if op == '=' {
        var _ := store.SetLocalVar(name + "=" + default.value, 0, env);
      }
    } else if op == '+' {
      v := Some("");
    }
  }

  /** The substitution loop of insert_var_value_sub. */
  method SubstituteInPlace(buf: array<char>, tag: bool, store: VariableList, env: map<string, string>, ghost s: string)
    returns (res: string, done: bool)
    requires Holds(buf, 0, s) && Paired(s) && store.Valid()
    modifies buf, store`vars
    ensures store.Valid() && buf[..] == old(buf[..])
    ensures (res, World(env, store.vars, store.lastReturnCode)) ==
        Substituted(World(env, old(store.vars), store.lastReturnCode), s, tag)
    ensures done == (Find(s, MARKER) < |s|)
  {
    hide LookupParam, WellKept, Paired, Substituted, Find, Lit, Behind, Name, Rest;
    ghost var w, rest := World(env, store.vars, store.lastReturnCode), s;
    ghost var goal := Substituted(w, s, tag);
    var inp: nat := 0;
    res := "";
    assert "" + goal.0 == goal.0;
    var p := StrChr(buf, inp, MARKER, rest);
    done := p.Some?;
    while p.Some?
      invariant Holds(buf, inp, rest) && Paired(rest) && store.Valid() &&
          w == World(env, store.vars, store.lastReturnCode)
      invariant buf[..] == old(buf[..])
      invariant p == if Find(rest, MARKER) < |rest| then Some(inp + Find(rest, MARKER)) else None
      invariant (res + Substituted(w, rest, tag).0, Substituted(w, rest, tag).1) == goal
      decreases |rest|
    {
      var lit, v;
      SlotUnfolded(w, rest, tag);
      lit, v, inp, rest := NextSlot(buf, inp, p.value, store, env, rest);
      w := World(env, store.vars, store.lastReturnCode);
      Cat4(res, lit, Inserted(v, tag), Substituted(w, rest, tag).0);
      res := res + lit + Inserted(v, tag);
      p := StrChr(buf, inp, MARKER, rest);
    }
    var last := ReadString(buf, inp, rest);
    NoSlot(w, rest, tag);
    res := res + last;
  }

  /** insert_var_value_sub: the result, and the input buffer as it was. */
  method InsertInPlace(buf: array<char>, tag: bool, store: VariableList, env: map<string, string>, ghost s: string)
    returns (res: string)
    requires Holds(buf, 0, s) && Paired(s) && store.Valid()
    modifies buf, store`vars
    ensures store.Valid() && buf[..] == old(buf[..])
    ensures (res, World(env, store.vars, store.lastReturnCode)) ==
        InsertVarValue(World(env, old(store.vars), store.lastReturnCode), s, tag)
  {
    var done;
    res, done := SubstituteInPlace(buf, tag, store, env, s);
    if done {
      res := SpaceNewlines(res);
    } else {
      NoSlot(World(env, old(store.vars), store.lastReturnCode), s, tag);
    }
  }

  /** The last loop of insert_var_value_sub: a space for the first newline, as long as there is one. */
  method SpaceNewlines(s: string) returns (r: string)
    ensures r == Despaced(s)
  {
    r := s;
    var p := Find(r, '\n');
    while p < |r|
      invariant |r| == |s| && p == Find(r, '\n') && Despaced(r) == Despaced(s)
      decreases |r| - p
    {
      ghost var before, k := r, p;
      r := r[p := ' '];
      assert Despaced(r) == Despaced(before);
      p := Find(r, '\n');
      assert p > k by {
        assert forall i :: 0 <= i < k ==> r[i] == before[i];
      }
    }
    assert Despaced(r) == r;
  }

  lemma Cat4(a: string, b: string, c: string, d: string)
    ensures a + (b + c + d) == (a + b + c) + d
  {
  }

  lemma NoSlot(w: World, s: string, tag: bool)
    requires Paired(s) && Find(s, MARKER) == |s|
    ensures Substituted(w, s, tag) == (s, w)
  {
  }

  lemma SlotUnfolded(w: World, s: string, tag: bool)
    requires Paired(s) && Find(s, MARKER) < |s|
    ensures HasSlot(s) && Paired(Rest(s))
    ensures var (v, w1) := LookupParam(w, Name(s));
      Substituted(w, s, tag) == (Lit(s) + Inserted(v, tag) + Substituted(w1, Rest(s), tag).0,
          Substituted(w1, Rest(s), tag).1)
  {
    hide Find, LookupParam;
  }

  /** One round of the substitution loop, the marker at p being the next one. */
  method NextSlot(buf: array<char>, inp: nat, p: nat, store: VariableList, env: map<string, string>, ghost s: string)
    returns (lit: string, v: Option<string>, inp': nat, ghost rest: string)
    requires Holds(buf, inp, s) && HasSlot(s) && store.Valid() && p == inp + Find(s, MARKER)
    modifies buf, store`vars
    ensures store.Valid() && buf[..] == old(buf[..])
    ensures lit == Lit(s) && rest == Rest(s) && Holds(buf, inp', rest)
    ensures (v, World(env, store.vars, store.lastReturnCode)) ==
        LookupParam(World(env, old(store.vars), store.lastReturnCode), Name(s))
  {
    hide LookupParam, WellKept, Find;
    ghost var t := Behind(s);
    lit := buf[inp..p];
    assert lit == Lit(s);
    HoldsBehind(buf, inp, s, Find(s, MARKER) + 1);
    var q := StrChr(buf, p + 1, MARKER, t);
    inp', rest := q.value + 1, Rest(s);
    HoldsBehind(buf, p + 1, t, Find(t, MARKER) + 1);
    ghost var before := buf[..];
    assert HoldsIn(before, inp', rest);
    v := LookupCut(buf, p + 1, q.value, store, env, t);
    assert HoldsIn(buf[..], inp', rest);
  }

  /** The lookup of the name in front of the marker at q, which a zero replaces for the time of the call. */
  method LookupCut(buf: array<char>, at: nat, q: nat, store: VariableList, env: map<string, string>, ghost t: string)
    returns (v: Option<string>)
    requires Holds(buf, at, t) && Find(t, MARKER) < |t| && q == at + Find(t, MARKER) && store.Valid()
    modifies buf, store`vars
    ensures store.Valid() && buf[..] == old(buf[..])
    ensures (v, World(env, store.vars, store.lastReturnCode))
      == LookupParam(World(env, old(store.vars), store.lastReturnCode), t[..Find(t, MARKER)])
  {
    hide LookupParam, WellKept, Find;
    ghost var before := buf[..];
    assert before[q] == t[Find(t, MARKER)];
    buf[q] := NUL;
    v := LookupInPlace(buf, at, store, env, t[..Find(t, MARKER)]);
    buf[q] := MARKER;
    assert buf[..] == before;
  }

  /** make_list_in's inner loop: NAME=FIELD for every field of a value. */
  method SplitValue(name: string, p: string) returns (list: seq<string>)
    ensures |list| == |Fields(p)|
    ensures forall i :: 0 <= i < |list| ==> list[i] == name + "=" + Fields(p)[i]
  {
    list := [];
    var p1 := 0;
    while p1 < |p|
      invariant 0 <= p1 <= |p|
      invariant |list| + |Fields(p[p1..])| == |Fields(p)|
      invariant Fields(p)[|list|..] == Fields(p[p1..])
      invariant forall i :: 0 <= i < |list| ==> list[i] == name + "=" + Fields(p)[i]
    {
      if p[p1] == ' ' {
        assert p[p1..][1..] == p[p1 + 1..];
        p1 := p1 + 1;
      } else {
        var len := Find(p[p1..], ' ');
        assert p[p1..][len..] == p[p1 + len..];
        assert Fields(p)[|list|] == Fields(p[p1..])[0];
        list := list + [name + "=" + p[p1..p1 + len]];
        p1 := p1 + len;
      }
    }
  }

  /** The fields of the words, substituted from left to right, and the world after that. */
  function FieldsOf(w: World, words: seq<string>): (seq<string>, World)
    requires forall i :: 0 <= i < |words| ==> Paired(words[i])
    decreases |words|
  {
    if words == [] then ([], w)
    else
      var n := |words| - 1;
      var (before, w1) := FieldsOf(w, words[..n]);
      var (text, w2) := InsertVarValue(w1, words[n], false);
      (before + Fields(text), w2)
  }

  /** A word with parameters contributes the fields of its filled text, each newline being a blank. */
  lemma FieldsOfWord(w: World, t: Template)
    requires WellFormed(t)
    ensures Paired(Marked(t))
    ensures var (r, w') := Filled(w, t, false);
      FieldsOf(w, [Marked(t)]) == (Fields(if t.Slot? then Despaced(r) else r), w')
  {
    InsertedFlat(w, t, false);
    var words, r := [Marked(t)], Filled(w, t, false).0;
    var s := InsertVarValue(w, Marked(t), false).0;
    assert s == if t.Slot? then Despaced(r) else r;
    hide InsertVarValue, Filled, Fields, Paired, Despaced;
    assert words[..0] == [] && FieldsOf(w, words[..0]) == ([], w);
    assert [] + Fields(s) == Fields(s);
  }

  /** `for i in a b c`: words without parameters and blanks are their own fields. */
  lemma {:induction false} PlainFields(w: World, words: seq<string>)
    requires forall i :: 0 <= i < |words| ==> MarkerFree(words[i]) && IsField(words[i])
    ensures forall i :: 0 <= i < |words| ==> Paired(words[i])
    ensures FieldsOf(w, words) == (words, w)
    decreases |words|
  {
    forall i | 0 <= i < |words|
      ensures Paired(words[i])
    {
      FindNone(words[i], MARKER);
    }
    if words != [] {
      var n := |words| - 1;
      var word := words[n];
      PlainFields(w, words[..n]);
      FindNone(word, MARKER);
      assert InsertVarValue(w, word, false) == (word, w);
      FieldEnds(word, "");
      assert word + "" == word && Fields("") == [] && [word] + [] == [word];
      assert words[..n] + [word] == words;
    }
  }

  /**
    make_list_in: NAME=FIELD for every field of every word, in order.  This is the
    list whose values the interpreter of `for` hands out.
   */
  method MakeListIn(words: seq<string>, name: string, store: VariableList, env: map<string, string>)
    returns (list: seq<string>)
    requires store.Valid()
    requires forall i :: 0 <= i < |words| ==> Paired(words[i]) && NUL !in words[i]
    modifies store`vars
    ensures store.Valid()
    ensures var (fields, w) := FieldsOf(World(env, old(store.vars), store.lastReturnCode), words);
      && w == World(env, store.vars, store.lastReturnCode)
      && AreAssignments(list, name, fields) && list == HushMachine.Assignments(name, fields)
  {
    list := [];
    ghost var w0 := World(env, store.vars, store.lastReturnCode);
    ghost var fields: seq<string> := [];
    for i := 0 to |words|
      invariant store.Valid() && FieldsOf(w0, words[..i]) == (fields, World(env, store.vars, store.lastReturnCode))
      invariant AreAssignments(list, name, fields)
    {
      hide InsertVarValue, Paired, Fields, WellKept, AreAssignments;
      assert words[..i + 1][..i] == words[..i];
      ghost var text := InsertVarValue(World(env, store.vars, store.lastReturnCode), words[i], false).0;
      var more := ListOfWord(words[i], name, store, env);
      MoreAssignments(list, more, name, fields, Fields(text));
      list, fields := list + more, fields + Fields(text);
    }
    assert words[..|words|] == words;
  }

  predicate AreAssignments(list: seq<string>, name: string, fields: seq<string>) {
    |list| == |fields| && forall i :: 0 <= i < |list| ==> list[i] == name + "=" + fields[i]
  }

  lemma MoreAssignments(
      list: seq<string>, more: seq<string>, name: string, fields: seq<string>, rest: seq<string>)
    requires AreAssignments(list, name, fields) && AreAssignments(more, name, rest)
    ensures AreAssignments(list + more, name, fields + rest)
  {
  }

  /** One round of make_list_in's outer loop. */
  method ListOfWord(word: string, name: string, store: VariableList, env: map<string, string>)
    returns (list: seq<string>)
    requires store.Valid() && Paired(word) && NUL !in word
    modifies store`vars
    ensures store.Valid()
    ensures var (text, w) := InsertVarValue(World(env, old(store.vars), store.lastReturnCode), word, false);
      w == World(env, store.vars, store.lastReturnCode) && AreAssignments(list, name, Fields(text))
  {
    hide InsertVarValue, Paired, Fields, WellKept;
    var buf := new char[|word| + 1](k requires 0 <= k < |word| + 1 => if k < |word| then word[k] else NUL);
    assert Holds(buf, 0, word);
    var text := InsertInPlace(buf, false, store, env, word);
    list := SplitValue(name, text);
  }
}
