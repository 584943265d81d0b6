/**
  What a `for` runs, told by its fields alone: the rounds take them from the
  front, one assignment NAME=FIELD and one body each.
 */
module HushFor {
  import opened HushSyntax
  import opened HushMachine
  import opened HushSemantics
  import opened HushRefinement

  /** The state between two rounds: the history and the status so far. */
  datatype Point = Point(hist: History, code: int)

  /** The word that a round runs in front of its body. */
  function Assignment(name: string, field: string): seq<string> {
    [name + "=" + field]
  }

  /** Round i of the loop: the assignment of field i, then the body. */
  predicate IsRound(env: Env, rule: Rule, c: Command, field: string, fuel: nat, p: Point, q: Point)
    requires c.For?
  {
    var word := Assignment(c.name, field);
    var code := env.status(p.hist, word);
    code >= -1 && EvalScript(env, rule, c.body, p.hist + [Event(word, code)], code, fuel) == Finished(q.hist, q.code)
  }

  /** The points ps lead through one round for each field, in order. */
  predicate AreRounds(env: Env, rule: Rule, c: Command, fields: seq<string>, fuel: nat, ps: seq<Point>)
    requires c.For?
  {
    && |ps| == |fields| + 1 && |fields| <= fuel
    && forall i :: 0 <= i < |fields| ==> IsRound(env, rule, c, fields[i], fuel - i, ps[i], ps[i + 1])
  }

  lemma {:induction false} RoundsOf(
      env: Env, rule: Rule, c: Command, fields: seq<string>, h: History, st: int, fuel: nat) returns (ps: seq<Point>)
    requires c.For? && EvalFor(env, rule, c, Assignments(c.name, fields), h, st, fuel).Finished?
    ensures AreRounds(env, rule, c, fields, fuel, ps) && ps[0] == Point(h, st)
    ensures var last := ps[|fields|];
      EvalFor(env, rule, c, Assignments(c.name, fields), h, st, fuel) == Finished(last.hist, last.code)
    decreases |fields|
  {
    ps := [Point(h, st)];
    if fields != [] {
      var vs := Assignments(c.name, fields);
      var r := EvalSimple(env, [vs[0]], h);
      var b := EvalScript(env, rule, c.body, r.hist, r.code, fuel);
      assert Assignment(c.name, fields[0]) == [vs[0]];
      assert vs[1..] == Assignments(c.name, fields[1..]);
      var qs := RoundsOf(env, rule, c, fields[1..], b.hist, b.code, fuel - 1);
      ps := ps + qs;
      forall i | 0 <= i < |fields|
        ensures IsRound(env, rule, c, fields[i], fuel - i, ps[i], ps[i + 1])
      {
        if i > 0 {
          assert IsRound(env, rule, c, fields[1..][i - 1], fuel - 1 - (i - 1), qs[i - 1], qs[i]);
        }
      }
    }
  }

  /** A finished `for`, under any rule, has run one round for each field, in order. */
  lemma ForInOrder(env: Env, rule: Rule, c: Command, h: History, fuel: nat) returns (ps: seq<Point>)
    requires c.For? && c.raw != [] && EvalCommand(env, rule, c, h, fuel).Finished?
    ensures AreRounds(env, rule, c, env.fields(h, c.raw), fuel, ps) && ps[0] == Point(h, 0)
    ensures var last := ps[|env.fields(h, c.raw)|];
      EvalCommand(env, rule, c, h, fuel) == Finished(last.hist, last.code)
  {
    ps := RoundsOf(env, rule, c, env.fields(h, c.raw), h, 0, fuel);
  }

  // ----- a loop that does nothing but assign -----

  /** Behind h come events for the words that assign the fields, in order. */
  predicate Assigned(h: History, name: string, fields: seq<string>, h': History) {
    && |h'| == |h| + |fields| && h <= h'
    && forall i :: 0 <= i < |fields| ==> h'[|h| + i].argv == [name + "=" + fields[i]]
  }

  lemma {:induction false} BareRounds(
      env: Env, rule: Rule, c: Command, fields: seq<string>, h: History, st: int, fuel: nat)
    requires c.For? && c.body == Done && fuel >= |fields|
    requires forall h: History, argv: seq<string> :: env.status(h, argv) >= -1
    ensures var r := EvalFor(env, rule, c, Assignments(c.name, fields), h, st, fuel);
      r.Finished? && Assigned(h, c.name, fields, r.hist)
    decreases |fields|
  {
    if fields != [] {
      var vs := Assignments(c.name, fields);
      var r := EvalSimple(env, [vs[0]], h);
      assert env.status(h, [vs[0]]) >= -1;
      assert EvalScript(env, rule, c.body, r.hist, r.code, fuel) == r;
      assert vs[1..] == Assignments(c.name, fields[1..]);
      BareRounds(env, rule, c, fields[1..], r.hist, r.code, fuel - 1);
      var h' := EvalFor(env, rule, c, vs, h, st, fuel).hist;
      forall i | 0 <= i < |fields|
        ensures h'[|h| + i].argv == [c.name + "=" + fields[i]]
      {
        if i > 0 {
          assert h'[|r.hist| + (i - 1)].argv == [c.name + "=" + fields[1..][i - 1]];
        }
      }
    }
  }

  /** `for name in ...; do done` on the flag machine: one assignment a field, from the first to the last. */
  lemma BareForRuns(env: Env, name: string, raw: seq<string>, blanks: nat, h: History, fuel: nat)
    requires raw != [] && fuel >= |env.fields(h, raw)|
    requires forall h: History, argv: seq<string> :: env.status(h, argv) >= -1
    ensures var r := RunList(env, FlattenLine(Then(AndOr(For(name, raw, blanks, Done), End), Done)), h, fuel);
      r.Finished? && Assigned(h, name, env.fields(h, raw), r.hist)
  {
    var c := For(name, raw, blanks, Done);
    var s := Then(AndOr(c, End), Done);
    assert WfScript(s) by {
      assert WfScript(Done) && WfTail(End);
    }
    LineRuns(env, s, h, fuel);
    BareRounds(env, Abandon, c, env.fields(h, raw), h, 0, fuel);
    var r := EvalFor(env, Abandon, c, Assignments(name, env.fields(h, raw)), h, 0, fuel);
    assert EvalCompound(env, Abandon, c, h, fuel) == r;
    assert EvalCommand(env, Abandon, c, h, fuel) == r;
    assert EvalTail(env, Abandon, End, r.hist, r.code, fuel) == r;
    assert EvalChain(env, Abandon, s.unit, h, fuel) == r;
    assert EvalScript(env, Abandon, Done, r.hist, r.code, fuel) == r;
  }

  // ----- one simple command -----

  /** A line of one command runs it, with its words as they are, and reports its code. */
  lemma SimpleRuns(env: Env, argv: seq<string>, h: History, fuel: nat)
    requires argv != []
    ensures var code := env.status(h, argv);
      RunList(env, FlattenLine(Then(AndOr(Simple(argv), End), Done)), h, fuel)
      == if code < -1 then Exited(h + [Event(argv, code)], -code - 2) else Finished(h + [Event(argv, code)], code)
  {
    var s := Then(AndOr(Simple(argv), End), Done);
    assert WfScript(s) by {
      assert WfScript(Done) && WfTail(End) && WfCommand(Simple(argv));
    }
    LineRuns(env, s, h, fuel);
    var r := EvalCommand(env, Abandon, Simple(argv), h, fuel);
    if r.Finished? {
      assert EvalTail(env, Abandon, End, r.hist, r.code, fuel) == r;
      assert EvalScript(env, Abandon, Done, r.hist, r.code, fuel) == r;
    }
    assert EvalChain(env, Abandon, s.unit, h, fuel) == r;
  }

  // ----- malformed loops -----

  /**
    Nothing runs, and the code is 1, if a `for` is not followed by its `in`, if the
    list ends behind a `for` or an `in`, or if a second line of words follows an `in`.
   */
  lemma BadForRefused(env: Env, before: seq<Pipe>, p: Pipe, behind: seq<Pipe>, h: History, fuel: nat)
    requires p.mode == ResFor || p.mode == ResIn
    requires || behind == []
             || (p.mode == ResFor && behind[0].mode != ResIn)
             || (p.mode == ResIn && behind[0].mode == ResIn && behind[0].prog.Words?)
    ensures RunList(env, before + [p] + behind, h, fuel) == Finished(h, 1)
  {
    var list, i := before + [p] + behind, |before|;
    assert list[i] == p && (behind != [] ==> list[i + 1] == behind[0]);
    assert !ForPipeOk(list, i);
  }
}
