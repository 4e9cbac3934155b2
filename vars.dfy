/** The shell variables of src/vars.c: a list of name/value pairs whose
    head is the most recently created variable, the recognition of
    `NAME=value` lines, and the expansion of `$NAME` and `${NAME}` in the
    words of a parsed command. */
module Vars {
  import opened Wrappers
  import opened Seqs
  import opened Limits
  import opened Text
  import opened Parser

  datatype Var = Var(name: string, value: string)

  /** The position of the first variable called `name`, if any. */
  function IndexOf(vs: seq<Var>, name: string): (r: Option<nat>)
    ensures r.None? <==> forall k :: 0 <= k < |vs| ==> vs[k].name != name
    ensures r.Some? ==> r.value < |vs| && vs[r.value].name == name
    ensures r.Some? ==> forall k :: 0 <= k < r.value ==> vs[k].name != name
  {
    FirstWhere(vs, (v: Var) => v.name == name)
  }

  /** get_var: the value of the first variable called `name`; None stands
      for NULL. */
  function Lookup(vs: seq<Var>, name: string): (r: Option<string>)
    ensures r.None? <==> forall k :: 0 <= k < |vs| ==> vs[k].name != name
    ensures r.Some? ==> Var(name, r.value) in vs
  {
    match IndexOf(vs, name)
    case None => None
    case Some(i) => Some(vs[i].value)
  }

  /** No two variables share a name. */
  ghost predicate DistinctNames(vs: seq<Var>) {
    forall i, j :: 0 <= i < j < |vs| ==> vs[i].name != vs[j].name
  }

  /** The list after set_var(name, value): the value of an existing
      variable is replaced where it stands, otherwise a new variable is put
      at the head. */
  function Assigned(vs: seq<Var>, name: string, value: string): (r: seq<Var>)
    ensures IndexOf(vs, name).None? ==> r == [Var(name, value)] + vs
    ensures IndexOf(vs, name).Some? ==> |r| == |vs| && r[IndexOf(vs, name).value] == Var(name, value)
    ensures IndexOf(vs, name).Some? ==> forall k :: 0 <= k < |vs| && k != IndexOf(vs, name).value ==> r[k] == vs[k]
  {
    match IndexOf(vs, name)
    case None => [Var(name, value)] + vs
    case Some(i) => vs[i := Var(name, value)]
  }

  /** Two lists whose names agree position by position find a name at the
      same position. */
  lemma SameNamesSameIndex(a: seq<Var>, b: seq<Var>, name: string)
    requires |a| == |b| && forall k :: 0 <= k < |a| ==> (a[k].name == name <==> b[k].name == name)
    ensures IndexOf(a, name) == IndexOf(b, name)
  {
    match IndexOf(a, name)
    case None =>
      assert forall k :: 0 <= k < |b| ==> b[k].name != name by {
        forall k | 0 <= k < |b| ensures b[k].name != name {
          assert a[k].name != name;
        }
      }
      assert IndexOf(b, name).None?;
    case Some(i) =>
      assert b[i].name == name;
      var j := IndexOf(b, name).value;
      assert a[j].name == name;
      assert i <= j && j <= i;
      assert IndexOf(b, name) == Some(i);
  }

  /** After an assignment the name has the new value and every other name
      keeps its old one. */
  lemma LookupAssigned(vs: seq<Var>, name: string, value: string, other: string)
    ensures Lookup(Assigned(vs, name, value), name) == Some(value)
    ensures other != name ==> Lookup(Assigned(vs, name, value), other) == Lookup(vs, other)
  {
    var r := Assigned(vs, name, value);
    match IndexOf(vs, name)
    case None =>
      assert r[0] == Var(name, value) && r[1..] == vs;
    case Some(i) =>
      assert IndexOf(r, name) == Some(i) by {
        assert r[i].name == name;
      }
      if other != name {
        SameNamesSameIndex(r, vs, other);
      }
  }

  /** Assignment never creates a second variable of the same name. */
  lemma AssignedKeepsDistinct(vs: seq<Var>, name: string, value: string)
    requires DistinctNames(vs)
    ensures DistinctNames(Assigned(vs, name, value))
  {
    var r := Assigned(vs, name, value);
    if IndexOf(vs, name).None? {
      forall i, j | 0 <= i < j < |r| ensures r[i].name != r[j].name {
        if i > 0 {
          assert r[i] == vs[i - 1] && r[j] == vs[j - 1];
        } else {
          assert r[j] == vs[j - 1];
        }
      }
    } else {
      forall i, j | 0 <= i < j < |r| ensures r[i].name != r[j].name {
        assert r[i].name == vs[i].name && r[j].name == vs[j].name;
      }
    }
  }

  // ---------- NAME=value lines ----------

  /** Every character of `w` may appear in a variable name. */
  predicate IsName(w: string) {
    forall i :: 0 <= i < |w| ==> IsNameChar(w[i])
  }

  /** One matching pair of double or single quotes around a value of at
      least two characters is removed. */
  function Unquote(v: string): (r: string)
    ensures |v| >= 2 && (v[0] == '"' || v[0] == '\'') && v[|v| - 1] == v[0] ==> r == v[1..|v| - 1]
    ensures !(|v| >= 2 && (v[0] == '"' || v[0] == '\'') && v[|v| - 1] == v[0]) ==> r == v
  {
    if |v| >= 2 && ((v[0] == '"' && v[|v| - 1] == '"') || (v[0] == '\'' && v[|v| - 1] == '\'')) then v[1..|v| - 1] else v
  }

  datatype Assignment = Assignment(name: string, value: string)

  /** The assignment handle_variable_assignment reads from `line`: the
      name before the first `=`, non-empty and made of name characters, and
      the unquoted rest. */
  function ParseAssignment(line: string): (r: Option<Assignment>)
    ensures r.Some? ==> var n := |r.value.name|;
      && 0 < n < |line| && IsName(r.value.name)
      && line[..n] == r.value.name && line[n] == '='
      && r.value.value == Unquote(line[n + 1..])
  {
    match Find(line, '=')
    case None => None
    case Some(k) => if k == 0 || !IsName(line[..k]) then None else Some(Assignment(line[..k], Unquote(line[k + 1..])))
  }

  /** A line is an assignment exactly when some `=` in it follows a
      non-empty run of name characters starting at the beginning. */
  lemma ParseAssignmentExactly(line: string)
    ensures ParseAssignment(line).Some? <==> exists k :: 0 < k < |line| && line[k] == '=' && IsName(line[..k])
  {
    if ParseAssignment(line).Some? {
      var n := |ParseAssignment(line).value.name|;
      assert 0 < n < |line| && line[n] == '=' && IsName(line[..n]);
    }
    if exists k :: 0 < k < |line| && line[k] == '=' && IsName(line[..k]) {
      var k :| 0 < k < |line| && line[k] == '=' && IsName(line[..k]);
      NameHasNoEquals(line[..k]);
      assert line == line[..k] + line[k..] && line[k..][0] == '=';
      FindAfter(line[..k], line[k..]);
    }
  }

  lemma NameHasNoEquals(w: string)
    requires IsName(w)
    ensures '=' !in w
  {
    forall i | 0 <= i < |w| ensures w[i] != '=' {
      assert IsNameChar(w[i]);
    }
  }

  /** strchr skips a prefix that does not hold the character. */
  lemma {:induction false} FindAfter(a: string, b: string)
    requires '=' !in a && b != [] && b[0] == '='
    ensures Find(a + b, '=') == Some(|a|)
    decreases |a|
  {
    if a == [] {
      assert a + b == b;
    } else {
      assert (a + b)[0] == a[0] && (a + b)[1..] == a[1..] + b;
      assert '=' !in a[1..];
      FindAfter(a[1..], b);
    }
  }

  /** Writing an assignment and reading it back: `name=raw` gives back
      the name and the unquoted raw value. */
  lemma ParseAssignmentOf(name: string, raw: string)
    requires name != [] && IsName(name)
    ensures ParseAssignment(name + "=" + raw) == Some(Assignment(name, Unquote(raw)))
  {
    var line := name + "=" + raw;
    NameHasNoEquals(name);
    assert line == name + ("=" + raw);
    FindAfter(name, "=" + raw);
    assert line[..|name|] == name;
    assert line[|name| + 1..] == raw;
  }

  /** One pair of quotes around any text is removed, and only one. */
  lemma UnquoteQuoted(q: char, s: string)
    requires q == '"' || q == '\''
    ensures Unquote([q] + s + [q]) == s
  {
    var v := [q] + s + [q];
    assert v[1..|v| - 1] == s;
  }

  // ---------- $NAME and ${NAME} ----------

  /** Number of leading name characters of `s`. */
  function NameRun(s: string): (n: nat)
    ensures n <= |s|
    ensures forall i :: 0 <= i < n ==> IsNameChar(s[i])
    ensures n < |s| ==> !IsNameChar(s[n])
    decreases |s|
  {
    if s == [] || !IsNameChar(s[0]) then 0 else 1 + NameRun(s[1..])
  }

  function Min(a: nat, b: nat): nat {
    if a < b then a else b
  }

  /** The value of `name`, or nothing when it is unset. */
  function ValueOr(vs: seq<Var>, name: string): string {
    Lookup(vs, name).GetOr("")
  }

  /** The expansion of `s` without the limit of the output buffer: other
      characters are copied, `${` takes up to NameCap characters other
      than `}` as the name and skips the `}` that follows, `$` takes up
      to NameCap name characters, and a `$` with no name after it is
      dropped. Values are copied without being scanned again. */
  function Expand(s: string, vs: seq<Var>): string
    decreases |s|
  {
    if s == [] then []
    else if s[0] != '$' then [s[0]] + Expand(s[1..], vs)
    else if |s| > 1 && s[1] == '{' then
      var body := s[2..];
      var n := Min(RunLength(body, {'}'}), NameCap);
      var after := if n < |body| && body[n] == '}' then body[n + 1..] else body[n..];
      ValueOr(vs, body[..n]) + Expand(after, vs)
    else
      var r := s[1..];
      var n := Min(NameRun(r), NameCap);
      (if n == 0 then [] else ValueOr(vs, r[..n])) + Expand(r[n..], vs)
  }

  /** The longest text the output buffer of expand_token holds. */
  const OutCap: nat := MaxLen - 1

  /** expand_token: a word without `$` is copied whole; otherwise the
      expansion is cut to what the buffer holds, since both the copying of
      characters and strncat stop at OutCap. */
  function TokenExpansion(tok: string, vs: seq<Var>): (r: string)
    ensures '$' !in tok ==> r == tok
    ensures '$' in tok ==> |r| <= OutCap
  {
    if '$' !in tok then tok else Take(Expand(tok, vs), OutCap)
  }

  /** Text with no `$` expands to itself. */
  lemma {:induction false} ExpandLiteral(s: string, vs: seq<Var>)
    requires '$' !in s
    ensures Expand(s, vs) == s
    decreases |s|
  {
    if s != [] {
      assert s[0] != '$' && '$' !in s[1..];
      ExpandLiteral(s[1..], vs);
      assert s == [s[0]] + s[1..];
    }
  }

  /** Characters before the first `$` are copied in order, followed by the
      expansion of the rest. */
  lemma {:induction false} ExpandLiteralPrefix(a: string, b: string, vs: seq<Var>)
    requires '$' !in a
    ensures Expand(a + b, vs) == a + Expand(b, vs)
    decreases |a|
  {
    if a == [] {
      assert a + b == b;
    } else {
      assert (a + b)[0] == a[0] && (a + b)[1..] == a[1..] + b;
      assert '$' !in a[1..];
      ExpandLiteralPrefix(a[1..], b, vs);
      assert a == [a[0]] + a[1..];
    }
  }

  lemma {:induction false} NameRunOfNameThen(name: string, rest: string)
    requires IsName(name)
    requires rest == [] || !IsNameChar(rest[0])
    ensures NameRun(name + rest) == |name|
    decreases |name|
  {
    if name == [] {
      assert name + rest == rest;
    } else {
      assert (name + rest)[0] == name[0] && (name + rest)[1..] == name[1..] + rest;
      NameRunOfNameThen(name[1..], rest);
    }
  }

  /** `$NAME` followed by a character that cannot continue a name is
      replaced by the value of NAME, or by nothing when it is unset. */
  lemma ExpandName(name: string, rest: string, vs: seq<Var>)
    requires name != [] && IsName(name) && |name| <= NameCap
    requires rest == [] || !IsNameChar(rest[0])
    ensures Expand("$" + name + rest, vs) == ValueOr(vs, name) + Expand(rest, vs)
  {
    var s := "$" + name + rest;
    var r := s[1..];
    assert r == name + rest;
    NameRunOfNameThen(name, rest);
    assert name[0] != '{' by {
      assert IsNameChar(name[0]);
    }
    assert s[1] == name[0];
    assert r[..|name|] == name && r[|name|..] == rest;
  }

  /** `${NAME}` is replaced by the value of NAME, or by nothing when it is
      unset. */
  lemma ExpandBraced(name: string, rest: string, vs: seq<Var>)
    requires '}' !in name && |name| <= NameCap
    ensures Expand("${" + name + "}" + rest, vs) == ValueOr(vs, name) + Expand(rest, vs)
  {
    BracedShape(name, rest);
    assert Avoids(name, {'}'}) by {
      forall i | 0 <= i < |name| ensures name[i] !in {'}'} {
        assert name[i] in name;
      }
    }
    RunLengthOfWordThen(name, "}" + rest, {'}'});
  }

  lemma BracedShape(name: string, rest: string)
    ensures var s := "${" + name + "}" + rest;
      && |s| > 1 && s[0] == '$' && s[1] == '{'
      && var body := s[2..];
      && body == name + ("}" + rest) && body[|name|] == '}'
      && body[..|name|] == name && body[|name| + 1..] == rest
  {
    var s := "${" + name + "}" + rest;
    assert s[2..] == name + ("}" + rest);
  }

  /** A `$` followed by neither `{` nor a name character is dropped, and
      what follows it is expanded as usual. */
  lemma ExpandLoneDollar(rest: string, vs: seq<Var>)
    requires rest == [] || (rest[0] != '{' && !IsNameChar(rest[0]))
    ensures Expand("$" + rest, vs) == Expand(rest, vs)
  {
    var s := "$" + rest;
    assert s[1..] == rest;
    assert s[1..][0..] == rest;
  }

  /** Cutting to the buffer first and then appending more changes nothing
      once the result is cut again. */
  lemma CapAppend(a: string, b: string, n: nat)
    ensures Take(Take(a, n) + b, n) == Take(a + b, n)
  {
    if |a| > n {
      assert (a + b)[..n] == a[..n];
      assert (a[..n] + b)[..n] == a[..n];
    }
  }

  /** strncat(dst, src, n): at most `n` characters of `src` appended. */
  function StrNCat(dst: string, src: string, n: nat): string {
    dst + Take(src, n)
  }

  /** The expansion of a whole Command: every word of both stages and both
      file names. */
  function Expanded(cmd: Command, vs: seq<Var>): (r: Command)
    ensures |r.argv| == |cmd.argv| && |r.pipeArgv| == |cmd.pipeArgv|
    ensures forall i :: 0 <= i < |cmd.argv| ==> r.argv[i] == TokenExpansion(cmd.argv[i], vs)
    ensures forall i :: 0 <= i < |cmd.pipeArgv| ==> r.pipeArgv[i] == TokenExpansion(cmd.pipeArgv[i], vs)
    ensures r.inFile.Some? <==> cmd.inFile.Some?
    ensures r.inFile.Some? ==> r.inFile.value == TokenExpansion(cmd.inFile.value, vs)
    ensures r.outFile.Some? <==> cmd.outFile.Some?
    ensures r.outFile.Some? ==> r.outFile.value == TokenExpansion(cmd.outFile.value, vs)
    ensures r.hasPipe == cmd.hasPipe && r.background == cmd.background
  {
    Command(
      ExpandAll(cmd.argv, vs),
      ExpandAll(cmd.pipeArgv, vs),
      ExpandFile(cmd.inFile, vs),
      ExpandFile(cmd.outFile, vs),
      cmd.hasPipe,
      cmd.background)
  }

  function ExpandAll(ws: seq<string>, vs: seq<Var>): (r: seq<string>)
    ensures |r| == |ws| && forall i :: 0 <= i < |ws| ==> r[i] == TokenExpansion(ws[i], vs)
  {
    if ws == [] then [] else [TokenExpansion(ws[0], vs)] + ExpandAll(ws[1..], vs)
  }

  function ExpandFile(f: Option<string>, vs: seq<Var>): Option<string> {
    match f
    case None => None
    case Some(p) => Some(TokenExpansion(p, vs))
  }

  class VarStore {
    var vars: seq<Var>

    ghost predicate Valid()
      reads this
    {
      DistinctNames(vars)
    }

    constructor ()
      ensures Valid() && vars == []
    {
      vars := [];
    }

    /** set_var: a missing name (NULL) changes nothing, a missing value is
        stored as the empty string. */
    method SetVar(name: Option<string>, value: Option<string>)
      requires Valid()
      modifies this
      ensures Valid()
      ensures vars == if name.None? then old(vars) else Assigned(old(vars), name.value, value.GetOr(""))
    {
      if name.None? {
        return;
      }
      AssignedKeepsDistinct(vars, name.value, value.GetOr(""));
      var i := 0;
      while i < |vars|
        invariant 0 <= i <= |vars|
        invariant forall k :: 0 <= k < i ==> vars[k].name != name.value
      {
        if vars[i].name == name.value {
          vars := vars[i := Var(name.value, value.GetOr(""))];
          return;
        }
        i := i + 1;
      }
      vars := [Var(name.value, value.GetOr(""))] + vars;
    }

    /** get_var: the value of `name`, None when it is unset. */
    method GetVar(name: string) returns (r: Option<string>)
      ensures r == Lookup(vars, name)
    {
      var i := 0;
      while i < |vars|
        invariant 0 <= i <= |vars|
        invariant forall k :: 0 <= k < i ==> vars[k].name != name
      {
        if vars[i].name == name {
          return Some(vars[i].value);
        }
        i := i + 1;
      }
      return None;
    }

    /** handle_variable_assignment: true, with the variable set, when the
        line is an assignment; false, with nothing changed, otherwise. */
    method HandleVariableAssignment(line: Option<string>) returns (handled: bool)
      requires Valid()
      modifies this
      ensures Valid()
      ensures handled <==> line.Some? && ParseAssignment(line.value).Some?
      ensures handled ==> var a := ParseAssignment(line.value).value; vars == Assigned(old(vars), a.name, a.value)
      ensures !handled ==> vars == old(vars)
    {
      if line.None? {
        return false;
      }
      var a := ReadAssignment(line.value);
      if a.None? {
        return false;
      }
      SetVar(Some(a.value.name), Some(a.value.value));
      return true;
    }

    /** The parsing half of handle_variable_assignment: the first `=`, the
        name check on what precedes it, and the quotes taken off the value. */
    static method ReadAssignment(s: string) returns (a: Option<Assignment>)
      ensures a == ParseAssignment(s)
    {
      var eq := Find(s, '=');
      if eq.None? || eq.value == 0 {
        return None;
      }
      var k := eq.value;
      var ok := IsNamePrefix(s, k);
      if !ok {
        return None;
      }
      var name := s[..k];
      var value := s[k + 1..];
      if |value| >= 2 && ((value[0] == '"' && value[|value| - 1] == '"') || (value[0] == '\'' && value[|value| - 1] == '\'')) {
        value := value[1..|value| - 1];
      }
      return Some(Assignment(name, value));
    }

    /** The check that every character before position `k` is a name
        character. */
    static method IsNamePrefix(s: string, k: nat) returns (ok: bool)
      requires k <= |s|
      ensures ok == IsName(s[..k])
    {
      var p := 0;
      while p < k
        invariant 0 <= p <= k
        invariant forall i :: 0 <= i < p ==> IsNameChar(s[i])
      {
        if !IsNameChar(s[p]) {
          assert s[..k][p] == s[p];
          return false;
        }
        p := p + 1;
      }
      return true;
    }

    /** Appends the value of `name`, if set, to `out` as strncat does. */
    method AppendValue(out: string, name: string) returns (out': string)
      requires |out| <= OutCap
      ensures out' == Take(out + ValueOr(vars, name), OutCap)
    {
      var val := GetVar(name);
      out' := out;
      if val.Some? {
        out' := StrNCat(out, val.value, MaxLen - |out| - 1);
      }
      if val.None? {
        assert out + "" == out;
      }
    }

    /** The name after `${` at `p`: up to NameCap characters other than
        `}`. */
    method ScanBraced(tok: string, p: nat) returns (name: string, q: nat)
      requires p <= |tok|
      ensures q == p + Min(RunLength(tok[p..], {'}'}), NameCap) && name == tok[p..q]
    {
      name := [];
      q := p;
      while q < |tok| && tok[q] != '}' && |name| < NameCap
        invariant p <= q <= |tok| && name == tok[p..q]
        invariant forall i :: p <= i < q ==> tok[i] != '}'
        invariant |name| <= NameCap
      {
        name := name + [tok[q]];
        q := q + 1;
      }
      BracedRunAt(tok, p, q);
    }

    /** The name after `$` at `p`: up to NameCap name characters. */
    method ScanName(tok: string, p: nat) returns (name: string, q: nat)
      requires p <= |tok|
      ensures q == p + Min(NameRun(tok[p..]), NameCap) && name == tok[p..q]
    {
      name := [];
      q := p;
      while q < |tok| && IsNameChar(tok[q]) && |name| < NameCap
        invariant p <= q <= |tok| && name == tok[p..q]
        invariant forall i :: p <= i < q ==> IsNameChar(tok[i])
        invariant |name| <= NameCap
      {
        name := name + [tok[q]];
        q := q + 1;
      }
      NameRunAt(tok, p, q);
    }

    /** expand_token: the single pass over the word into a buffer of
        MaxLen bytes. */
    method ExpandToken(tok: string) returns (r: string)
      ensures r == TokenExpansion(tok, vars)
    {
      if Find(tok, '$').None? {
        return tok;
      }
      r := ExpandCapped(tok);
    }

    /** The loop of expand_token: the expansion of `tok`, cut at OutCap. */
    method ExpandCapped(tok: string) returns (out: string)
      ensures out == Take(Expand(tok, vars), OutCap)
    {
      out := "";
      var p := 0;
      FromStart(tok, vars);
      while p < |tok|
        invariant 0 <= p <= |tok| && |out| <= OutCap
        invariant Take(out + Expand(tok[p..], vars), OutCap) == Take(Expand(tok, vars), OutCap)
        decreases |tok| - p
      {
        if tok[p] != '$' {
          out, p := AppendLiteral(tok, p, out);
        } else {
          out, p := ExpandDollar(tok, p, out);
        }
      }
      AtEnd(tok, out, vars);
    }

    /** A character other than `$`: copied while the output has room. */
    method AppendLiteral(tok: string, p: nat, out: string) returns (out': string, p': nat)
      requires p < |tok| && tok[p] != '$' && |out| <= OutCap
      ensures p' == p + 1 && |out'| <= OutCap
      ensures Take(out' + Expand(tok[p'..], vars), OutCap) == Take(out + Expand(tok[p..], vars), OutCap)
    {
      LiteralStep(out, tok, p, vars);
      out' := out;
      if |out| + 1 < MaxLen {
        out' := out + [tok[p]];
      }
      p' := p + 1;
    }

    /** One `$` of expand_token at position `p`, with what follows it. */
    method ExpandDollar(tok: string, p: nat, out: string) returns (out': string, p': nat)
      requires p < |tok| && tok[p] == '$' && |out| <= OutCap
      ensures p < p' <= |tok| && |out'| <= OutCap
      ensures Take(out' + Expand(tok[p'..], vars), OutCap) == Take(out + Expand(tok[p..], vars), OutCap)
    {
      if p + 1 < |tok| && tok[p + 1] == '{' {
        out', p' := ExpandBracedRef(tok, p, out);
      } else {
        out', p' := ExpandNamedRef(tok, p, out);
      }
    }

    /** `${NAME}` at position `p`. */
    method ExpandBracedRef(tok: string, p: nat, out: string) returns (out': string, p': nat)
      requires p + 1 < |tok| && tok[p] == '$' && tok[p + 1] == '{' && |out| <= OutCap
      ensures p < p' <= |tok| && |out'| <= OutCap
      ensures Take(out' + Expand(tok[p'..], vars), OutCap) == Take(out + Expand(tok[p..], vars), OutCap)
    {
      var name, q := ScanBraced(tok, p + 2);
      BracedStep(tok, p, q, vars);
      ghost var after := if q < |tok| && tok[q] == '}' then tok[q + 1..] else tok[q..];
      if q < |tok| && tok[q] == '}' {
        q := q + 1;
      }
      assert tok[q..] == after;
      out' := AppendValue(out, name);
      StepInvariant(out, ValueOr(vars, name), Expand(after, vars), Expand(tok[p..], vars));
      p' := q;
    }

    /** `$NAME`, or a lone `$`, at position `p`. */
    method ExpandNamedRef(tok: string, p: nat, out: string) returns (out': string, p': nat)
      requires p < |tok| && tok[p] == '$' && !(p + 1 < |tok| && tok[p + 1] == '{') && |out| <= OutCap
      ensures p < p' <= |tok| && |out'| <= OutCap
      ensures Take(out' + Expand(tok[p'..], vars), OutCap) == Take(out + Expand(tok[p..], vars), OutCap)
    {
      var name, q := ScanName(tok, p + 1);
      NamedStep(tok, p, q, vars);
      if |name| == 0 {
        assert [] + Expand(tok[q..], vars) == Expand(tok[q..], vars);
        out', p' := out, q;
        return;
      }
      out' := AppendValue(out, name);
      StepInvariant(out, ValueOr(vars, name), Expand(tok[q..], vars), Expand(tok[p..], vars));
      p' := q;
    }

    /** expand_command_tokens: every word of both stages and both file
        names replaced by its expansion. */
    method ExpandCommandTokens(cmd: Command) returns (c: Command)
      ensures c == Expanded(cmd, vars)
    {
      var argv := cmd.argv;
      var i := 0;
      while i < |argv|
        invariant 0 <= i <= |argv| && |argv| == |cmd.argv|
        invariant forall k :: 0 <= k < i ==> argv[k] == TokenExpansion(cmd.argv[k], vars)
        invariant forall k :: i <= k < |argv| ==> argv[k] == cmd.argv[k]
      {
        var e := ExpandToken(argv[i]);
        argv := argv[i := e];
        i := i + 1;
      }
      var pipeArgv := cmd.pipeArgv;
      i := 0;
      while i < |pipeArgv|
        invariant 0 <= i <= |pipeArgv| && |pipeArgv| == |cmd.pipeArgv|
        invariant forall k :: 0 <= k < i ==> pipeArgv[k] == TokenExpansion(cmd.pipeArgv[k], vars)
        invariant forall k :: i <= k < |pipeArgv| ==> pipeArgv[k] == cmd.pipeArgv[k]
      {
        var e := ExpandToken(pipeArgv[i]);
        pipeArgv := pipeArgv[i := e];
        i := i + 1;
      }
      var inFile := cmd.inFile;
      if inFile.Some? {
        var e := ExpandToken(inFile.value);
        inFile := Some(e);
      }
      var outFile := cmd.outFile;
      if outFile.Some? {
        var e := ExpandToken(outFile.value);
        outFile := Some(e);
      }
      c := Command(argv, pipeArgv, inFile, outFile, cmd.hasPipe, cmd.background);
      assert c.argv == ExpandAll(cmd.argv, vars);
      assert c.pipeArgv == ExpandAll(cmd.pipeArgv, vars);
    }
  }

  // ---------- steps of the expand_token loop ----------

  lemma BracedRunAt(tok: string, p: nat, q: nat)
    requires p <= q <= |tok|
    requires forall i :: p <= i < q ==> tok[i] != '}'
    requires q == |tok| || tok[q] == '}' || q - p == NameCap
    requires q - p <= NameCap
    ensures q == p + Min(RunLength(tok[p..], {'}'}), NameCap)
  {
    var s := tok[p..];
    assert forall i :: 0 <= i < q - p ==> s[i] == tok[p + i];
    RunLengthAtLeast(s, {'}'}, q - p);
    assert q < |tok| ==> s[q - p] == tok[q];
  }

  lemma NameRunAt(tok: string, p: nat, q: nat)
    requires p <= q <= |tok|
    requires forall i :: p <= i < q ==> IsNameChar(tok[i])
    requires q == |tok| || !IsNameChar(tok[q]) || q - p == NameCap
    requires q - p <= NameCap
    ensures q == p + Min(NameRun(tok[p..]), NameCap)
  {
    var s := tok[p..];
    assert forall i :: 0 <= i < q - p ==> s[i] == tok[p + i];
    NameRunAtLeast(s, q - p);
    assert q < |tok| ==> s[q - p] == tok[q];
  }

  /** Expand at a `${` at position `d`, whose name ends at `q`. */
  lemma BracedStep(tok: string, d: nat, q: nat, vs: seq<Var>)
    requires d + 1 < |tok| && tok[d] == '$' && tok[d + 1] == '{'
    requires q == d + 2 + Min(RunLength(tok[d + 2..], {'}'}), NameCap)
    ensures q <= |tok|
    ensures Expand(tok[d..], vs) == ValueOr(vs, tok[d + 2..q]) +
      Expand(if q < |tok| && tok[q] == '}' then tok[q + 1..] else tok[q..], vs)
  {
    var s := tok[d..];
    assert s[0] == '$' && s[1] == '{';
    var body := s[2..];
    assert body == tok[d + 2..];
    var n := q - d - 2;
    assert body[..n] == tok[d + 2..q];
    if n < |body| {
      assert body[n] == tok[q];
      assert body[n + 1..] == tok[q + 1..];
    }
    assert body[n..] == tok[q..];
  }

  /** Expand at a `$` at position `d` not followed by `{`, whose name ends
      at `q`. */
  lemma NamedStep(tok: string, d: nat, q: nat, vs: seq<Var>)
    requires d < |tok| && tok[d] == '$' && !(d + 1 < |tok| && tok[d + 1] == '{')
    requires q == d + 1 + Min(NameRun(tok[d + 1..]), NameCap)
    ensures q <= |tok|
    ensures Expand(tok[d..], vs) ==
      (if q == d + 1 then [] else ValueOr(vs, tok[d + 1..q])) + Expand(tok[q..], vs)
  {
    var s := tok[d..];
    assert s[0] == '$';
    assert |s| > 1 ==> s[1] == tok[d + 1];
    var r := s[1..];
    assert r == tok[d + 1..];
    var n := q - d - 1;
    assert r[..n] == tok[d + 1..q];
    assert r[n..] == tok[q..];
  }

  /** The loop invariant survives appending a value through strncat. */
  lemma StepInvariant(out: string, v: string, rest: string, whole: string)
    requires whole == v + rest
    ensures Take(Take(out + v, OutCap) + rest, OutCap) == Take(out + whole, OutCap)
  {
    CapAppend(out + v, rest, OutCap);
    assert out + v + rest == out + whole;
  }

  /** Before the first step nothing has been written. */
  lemma FromStart(tok: string, vs: seq<Var>)
    ensures Take("" + Expand(tok[0..], vs), OutCap) == Take(Expand(tok, vs), OutCap)
  {
    assert tok[0..] == tok;
    AppendEmpty(Expand(tok, vs));
  }

  /** After the last step the buffer holds the whole capped expansion. */
  lemma AtEnd(tok: string, out: string, vs: seq<Var>)
    requires |out| <= OutCap
    ensures Take(out + Expand(tok[|tok|..], vs), OutCap) == out
  {
    assert tok[|tok|..] == [];
    AppendEmpty(out);
  }

  /** A literal character is copied while the buffer has room. */
  lemma LiteralStep(out: string, tok: string, p: nat, vs: seq<Var>)
    requires p < |tok| && tok[p] != '$' && |out| <= OutCap
    ensures var out' := if |out| + 1 < MaxLen then out + [tok[p]] else out;
      Take(out' + Expand(tok[p + 1..], vs), OutCap) == Take(out + Expand(tok[p..], vs), OutCap)
  {
    ExpandHead(tok, p, vs);
    CharStep(out, tok[p], Expand(tok[p + 1..], vs));
  }

  lemma ExpandHead(tok: string, p: nat, vs: seq<Var>)
    requires p < |tok| && tok[p] != '$'
    ensures Expand(tok[p..], vs) == [tok[p]] + Expand(tok[p + 1..], vs)
  {
    var s := tok[p..];
    assert s[0] == tok[p] && s[1..] == tok[p + 1..];
  }

  lemma CharStep(out: string, c: char, rest: string)
    requires |out| <= OutCap
    ensures var out' := if |out| + 1 < MaxLen then out + [c] else out;
      Take(out' + rest, OutCap) == Take(out + ([c] + rest), OutCap)
  {
    var out' := if |out| + 1 < MaxLen then out + [c] else out;
    assert out' == Take(out + [c], OutCap);
    CapAppend(out + [c], rest, OutCap);
    assert out + [c] + rest == out + ([c] + rest);
  }

  lemma {:induction false} RunLengthAtLeast(s: string, cs: set<char>, m: nat)
    requires m <= |s| && forall i :: 0 <= i < m ==> s[i] !in cs
    ensures RunLength(s, cs) >= m
    decreases m
  {
    if m > 0 {
      RunLengthAtLeast(s[1..], cs, m - 1);
    }
  }

  lemma {:induction false} NameRunAtLeast(s: string, m: nat)
    requires m <= |s| && forall i :: 0 <= i < m ==> IsNameChar(s[i])
    ensures NameRun(s) >= m
    decreases m
  {
    if m > 0 {
      NameRunAtLeast(s[1..], m - 1);
    }
  }
}
