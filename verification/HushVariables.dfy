/**
  The shell's local variables: set_local_var, unset_local_var and get_local_var
  work on an ordered list whose first entry is the read-only HUSH_VERSION.  The
  list refines a finite map.
 */
module HushVariables {
  import opened Decimals
  import opened Options
  import opened Strings

  datatype Variable = Variable(name: string, value: string, exported: int, readOnly: bool)

  const VERSION := Variable("HUSH_VERSION", "0.01", 0, true)

  predicate StartsAlpha(s: string) {
    s != "" && IsAlpha(s[0])
  }

  /** NAME=VALUE with a leading letter and a nonempty value. */
  predicate IsAssignment(s: string) {
    StartsAlpha(s) && Find(s, '=') + 1 < |s|
  }

  function NameOf(s: string): string { s[..Find(s, '=')] }

  function ValueOf(s: string): string
    requires IsAssignment(s)
  {
    s[Find(s, '=') + 1..]
  }

  // ----- the list and the map it stands for -----

  predicate Distinct(vars: seq<Variable>) {
    forall i, j :: 0 <= i < j < |vars| ==> vars[i].name != vars[j].name
  }

  predicate WellKept(vars: seq<Variable>) {
    && vars != [] && vars[0] == VERSION.(exported := vars[0].exported) && Distinct(vars)
    && forall i :: 1 <= i < |vars| ==> !vars[i].readOnly
  }

  /** Position of a name in the list, |vars| if absent. */
  function IndexOf(vars: seq<Variable>, name: string): (i: nat)
    ensures i <= |vars|
    ensures i < |vars| ==> vars[i].name == name
    ensures forall j :: 0 <= j < i ==> vars[j].name != name
  {
    if vars == [] || vars[0].name == name then 0 else 1 + IndexOf(vars[1..], name)
  }

  function Lookup(vars: seq<Variable>, name: string): Option<string> {
    var i := IndexOf(vars, name);
    if i < |vars| then Some(vars[i].value) else None
  }

  function Get(m: map<string, string>, name: string): Option<string> {
    if name in m then Some(m[name]) else None
  }

  ghost predicate Agrees(vars: seq<Variable>, m: map<string, string>) {
    forall name :: Lookup(vars, name) == Get(m, name)
  }

  /** What a caller does to the variables; env is the global environment. */
  datatype VarOp = Set(text: string, flag: int, env: map<string, string>) | Unset(name: string)

  /** The list after one call, and the code it returned. */
  function SetVar(vars: seq<Variable>, s: string, flag: int, env: map<string, string>): (seq<Variable>, int) {
    if !IsAssignment(s) || s in env then (vars, -1)
    else
      var name, value := NameOf(s), ValueOf(s);
      var i := IndexOf(vars, name);
      if i == |vars| then (vars + [Variable(name, value, flag, false)], 0)
      else if vars[i].value == value then
        if flag > 0 && vars[i].exported == 0 then (vars[i := vars[i].(exported := flag)], 0) else (vars, 1)
      else if vars[i].readOnly then (vars, -1)
      else
        var exported := if flag > 0 || vars[i].exported > 1 then 1 else vars[i].exported;
        (vars[i := vars[i].(value := value, exported := exported)], 0)
  }

  function UnsetVar(vars: seq<Variable>, name: string): seq<Variable> {
    var i := IndexOf(vars, name);
    if i == |vars| || vars[i].readOnly then vars else vars[..i] + vars[i + 1..]
  }

  function Apply(vars: seq<Variable>, op: VarOp): seq<Variable> {
    match op
    case Set(s, flag, env) => SetVar(vars, s, flag, env).0
    case Unset(name) => UnsetVar(vars, name)
  }

  function ApplyAll(vars: seq<Variable>, ops: seq<VarOp>): seq<Variable> {
    if ops == [] then vars else Apply(ApplyAll(vars, ops[..|ops| - 1]), ops[|ops| - 1])
  }

  /** The same calls on a map: assignments overwrite, HUSH_VERSION is immutable. */
  function MapOp(m: map<string, string>, op: VarOp): map<string, string> {
    match op
    case Set(s, _, env) =>
      if !IsAssignment(s) || s in env || NameOf(s) == VERSION.name then m else m[NameOf(s) := ValueOf(s)]
    case Unset(name) => if name == VERSION.name then m else m - {name}
  }

  function MapAll(m: map<string, string>, ops: seq<VarOp>): map<string, string> {
    if ops == [] then m else MapOp(MapAll(m, ops[..|ops| - 1]), ops[|ops| - 1])
  }

  function MapOf(vars: seq<Variable>): map<string, string> {
    if vars == [] then map[] else MapOf(vars[1..])[vars[0].name := vars[0].value]
  }

  /** Every list stands for a map. */
  lemma {:induction false} MapExists(vars: seq<Variable>)
    ensures Agrees(vars, MapOf(vars))
    decreases |vars|
  {
    if vars != [] {
      MapExists(vars[1..]);
      forall n: string
        ensures Lookup(vars, n) == Get(MapOf(vars), n)
      {
        assert Lookup(vars[1..], n) == Get(MapOf(vars[1..]), n);
      }
    }
  }

  /** get_dollar_var: `$?` is the last return code. */
  function DollarVar(code: nat, s: string): Option<string> {
    if s != "" && s[0] == '?' then Some(Decimal(code)) else None
  }

  function Decimal(n: nat): string {
    var d := InDecimal(n);
    seq(|d|, i requires 0 <= i < |d| => '0' + d[i] as char)
  }

  /** s is n in decimal: digits that stand for n, without leading zeros. */
  predicate Spells(s: string, n: nat) {
    && s != "" && (forall i :: 0 <= i < |s| ==> '0' <= s[i] <= '9') && (|s| > 1 ==> s[0] != '0')
    && Total(seq(|s|, i requires 0 <= i < |s| => if '0' <= s[i] then (s[i] - '0') as nat else 0)) == n
  }

  lemma DecimalSpells(n: nat)
    ensures Spells(Decimal(n), n)
  {
    DecimalRead(n);
    var s, d := Decimal(n), InDecimal(n);
    assert seq(|s|, i requires 0 <= i < |s| => if '0' <= s[i] then (s[i] - '0') as nat else 0) == d;
  }

  // ----- one call -----

  lemma IndexIs(vars: seq<Variable>, name: string, i: nat)
    requires i <= |vars| && (i < |vars| ==> vars[i].name == name)
    requires forall j :: 0 <= j < i ==> vars[j].name != name
    ensures IndexOf(vars, name) == i
  {
  }

  lemma AppendedLookup(vars: seq<Variable>, v: Variable, n: string)
    requires IndexOf(vars, v.name) == |vars|
    ensures Lookup(vars + [v], n) == if n == v.name then Some(v.value) else Lookup(vars, n)
  {
    var i := IndexOf(vars, n);
    IndexIs(vars + [v], n, if i < |vars| then i else if n == v.name then |vars| else |vars| + 1);
  }

  lemma UpdatedLookup(vars: seq<Variable>, i: nat, v: Variable, n: string)
    requires Distinct(vars) && i < |vars| && v.name == vars[i].name
    ensures Lookup(vars[i := v], n) == if n == v.name then Some(v.value) else Lookup(vars, n)
  {
    if n == v.name {
      IndexIs(vars[i := v], n, i);
    } else {
      IndexIs(vars[i := v], n, IndexOf(vars, n));
    }
  }

  lemma RemovedLookup(vars: seq<Variable>, i: nat, n: string)
    requires Distinct(vars) && i < |vars|
    ensures Lookup(vars[..i] + vars[i + 1..], n) == if n == vars[i].name then None else Lookup(vars, n)
  {
    var r, j := vars[..i] + vars[i + 1..], IndexOf(vars, n);
    assert forall x :: 0 <= x < |r| ==> r[x] == if x < i then vars[x] else vars[x + 1];
    if n == vars[i].name {
      IndexIs(vars, n, i);
      IndexIs(r, n, |r|);
    } else {
      IndexIs(r, n, if j < i then j else j - 1);
    }
  }

  lemma SetKeeps(vars: seq<Variable>, s: string, flag: int, env: map<string, string>)
    requires WellKept(vars)
    ensures WellKept(SetVar(vars, s, flag, env).0)
  {
  }

  lemma SetLookup(vars: seq<Variable>, s: string, flag: int, env: map<string, string>, n: string)
    requires WellKept(vars)
    ensures Lookup(SetVar(vars, s, flag, env).0, n)
            == if IsAssignment(s) && s !in env && NameOf(s) != VERSION.name && n == NameOf(s)
               then Some(ValueOf(s)) else Lookup(vars, n)
  {
    IndexIs(vars, VERSION.name, 0);
    if IsAssignment(s) && s !in env {
      var i := IndexOf(vars, NameOf(s));
      if i == |vars| {
        AppendedLookup(vars, Variable(NameOf(s), ValueOf(s), flag, false), n);
      } else {
        var r := SetVar(vars, s, flag, env).0;
        assert r == vars[i := r[i]];
        UpdatedLookup(vars, i, r[i], n);
        UpdatedLookup(vars, i, vars[i], n);
        assert vars[i := vars[i]] == vars;
      }
    }
  }

  /**
    What set_local_var does with NAME=VALUE: -1 and nothing for a name without a
    leading letter, an empty value, a text that names an environment variable, or
    a read-only variable; a new entry at the end; 1 for a value that is there
    already, unless it becomes exported; a changed value, exported as 1 if asked to
    be or if it came from outside.
   */
  lemma SetOutcome(vars: seq<Variable>, name: string, value: string, flag: int, env: map<string, string>, i: nat)
    requires '=' !in name && i <= |vars| && (i < |vars| ==> vars[i].name == name)
    requires forall j :: 0 <= j < i ==> vars[j].name != name
    ensures var text := name + "=" + value;
      var code := if name == "" then 0 else name[0] as int;
      var letter := 65 <= code <= 90 || 97 <= code <= 122 || (192 <= code <= 255 && code !in {215, 247});
      SetVar(vars, text, flag, env)
      == if !letter || value == "" || text in env then (vars, -1)
         else if i == |vars| then (vars + [Variable(name, value, flag, false)], 0)
         else if vars[i].value == value && flag > 0 && vars[i].exported == 0 then
           (vars[i := Variable(name, value, flag, vars[i].readOnly)], 0)
         else if vars[i].value == value then (vars, 1)
         else if vars[i].readOnly then (vars, -1)
         else if flag > 0 || vars[i].exported > 1 then (vars[i := Variable(name, value, 1, false)], 0)
         else (vars[i := Variable(name, value, vars[i].exported, false)], 0)
  {
    var text := name + "=" + value;
    assert text == name + (['='] + value);
    FindBehind(name, '=', value);
    assert text[..|name|] == name && text[|name| + 1..] == value;
    assert name != "" ==> text[0] == name[0];
    assert name == "" ==> text[0] == '=';
    IndexIs(vars, name, i);
  }

  lemma SetAgrees(vars: seq<Variable>, m: map<string, string>, s: string, flag: int, env: map<string, string>)
    requires WellKept(vars) && Agrees(vars, m)
    ensures Agrees(SetVar(vars, s, flag, env).0, MapOp(m, Set(s, flag, env)))
  {
    forall n: string
      ensures Lookup(SetVar(vars, s, flag, env).0, n) == Get(MapOp(m, Set(s, flag, env)), n)
    {
      hide SetVar, Lookup;
      SetLookup(vars, s, flag, env, n);
      assert Lookup(vars, n) == Get(m, n);
    }
  }

  lemma UnsetAgrees(vars: seq<Variable>, m: map<string, string>, name: string)
    requires WellKept(vars) && Agrees(vars, m)
    ensures WellKept(UnsetVar(vars, name)) && Agrees(UnsetVar(vars, name), MapOp(m, Unset(name)))
  {
    var i, r := IndexOf(vars, name), UnsetVar(vars, name);
    IndexIs(vars, VERSION.name, 0);
    assert i < |vars| && !vars[i].readOnly ==> forall x :: 0 <= x < |r| ==>
        r[x] == if x < i then vars[x] else vars[x + 1];
    forall n: string
      ensures Lookup(r, n) == Get(MapOp(m, Unset(name)), n)
    {
      assert Lookup(vars, n) == Get(m, n);
      if i < |vars| && !vars[i].readOnly {
        RemovedLookup(vars, i, n);
      }
    }
  }

  // ----- any run of calls -----

  /**
    After any run of set and unset calls the list has distinct names, starts
    with HUSH_VERSION = 0.01, and every lookup agrees with a finite map.
   */
  lemma {:induction false} ListIsMap(ops: seq<VarOp>)
    ensures var vars := ApplyAll([Variable("HUSH_VERSION", "0.01", 0, true)], ops);
      && WellKept(vars) && Agrees(vars, MapAll(map["HUSH_VERSION" := "0.01"], ops))
      && vars[0].name == "HUSH_VERSION" && vars[0].value == "0.01" && vars[0].readOnly
    decreases |ops|
  {
    if ops == [] {
      forall n: string
        ensures Lookup([VERSION], n) == Get(map[VERSION.name := VERSION.value], n)
      {
        IndexIs([VERSION], n, if n == VERSION.name then 0 else 1);
      }
    } else {
      ListIsMap(ops[..|ops| - 1]);
      var vars := ApplyAll([VERSION], ops[..|ops| - 1]);
      var m := MapAll(map[VERSION.name := VERSION.value], ops[..|ops| - 1]);
      match ops[|ops| - 1]
      case Set(s, flag, env) =>
        SetKeeps(vars, s, flag, env);
        SetAgrees(vars, m, s, flag, env);
      case Unset(name) => UnsetAgrees(vars, m, name);
    }
  }

  // ----- the list in place -----

  class VariableList {
    var vars: seq<Variable>
    var lastReturnCode: nat

    ghost predicate Valid()
      reads this
    {
      WellKept(vars)
    }

    /** u_boot_hush_start */
    constructor ()
      ensures Valid() && vars == [VERSION] && lastReturnCode == 0
    {
      vars, lastReturnCode := [VERSION], 0;
    }

    method Locate(name: string) returns (cur: nat)
      ensures cur == IndexOf(vars, name)
    {
      cur := 0;
      while cur < |vars|
        invariant 0 <= cur <= |vars|
        invariant cur + IndexOf(vars[cur..], name) == IndexOf(vars, name)
      {
        if vars[cur].name == name {
          return;
        }
        assert vars[cur..][1..] == vars[cur + 1..];
        cur := cur + 1;
      }
    }

    method GetLocalVar(s: string) returns (value: Option<string>)
      ensures s != "" && s[0] == '$' ==> value == DollarVar(lastReturnCode, s[1..])
      ensures s == "" || s[0] != '$' ==>
        value == Lookup(vars, s)
    {
      if s != "" && s[0] == '$' {
        return DollarVar(lastReturnCode, s[1..]);
      }
      var cur := Locate(s);
      value := if cur < |vars| then Some(vars[cur].value) else None;
    }

    method SetLocalVar(s: string, flag: int, env: map<string, string>) returns (result: int)
      requires Valid()
      modifies this`vars
      ensures Valid() && (vars, result) == SetVar(old(vars), s, flag, env)
    {
      result := 0;
      SetKeeps(vars, s, flag, env);
      hide WellKept;
      if !StartsAlpha(s) || s in env {
        return -1;
      }
      var eq := Find(s, '=');
      if eq == |s| || eq + 1 == |s| {
        return -1;
      }
      var name, value := s[..eq], s[eq + 1..];
      var cur := Locate(name);
      if cur < |vars| {
        if vars[cur].value == value {
          if flag > 0 && vars[cur].exported == 0 {
            vars := vars[cur := vars[cur].(exported := flag)];
          } else {
            result := result + 1;
          }
        } else if vars[cur].readOnly {
          result := -1;
        } else {
          if flag > 0 || vars[cur].exported > 1 {
            vars := vars[cur := vars[cur].(exported := 1)];
          }
          vars := vars[cur := vars[cur].(value := value)];
          assert vars == SetVar(old(vars), s, flag, env).0;
        }
      } else {
        vars := vars + [Variable(name, value, flag, false)];
      }
    }

    method UnsetLocalVar(name: string)
      requires Valid()
      modifies this`vars
      ensures Valid() && vars == UnsetVar(old(vars), name)
    {
      MapExists(vars);
      UnsetAgrees(vars, MapOf(vars), name);
      var cur := Locate(name);
      if cur < |vars| && !vars[cur].readOnly {
        vars := vars[..cur] + vars[cur + 1..];
      }
    }
  }
}
