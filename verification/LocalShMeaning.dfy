/** What sourcing cfg/local.sh does to the variables: literal assignments, `${X-}` and
    `${X:-d}` (section 2.6.2 of POSIX.1-2017, Shell Command Language).  Any other line
    is taken to leave the variables alone. */
module LocalShMeaning {
  import opened Text

  predicate NameChar(c: char) { 'a' <= c <= 'z' || 'A' <= c <= 'Z' || '0' <= c <= '9' || c == '_' }

  predicate IsName(s: string) { s != "" && !IsDigit(s[0]) && forall i :: 0 <= i < |s| ==> NameChar(s[i]) }

  datatype Rhs = Lit(text: string) | Keep(x: string) | Default(x: string, d: string)
  datatype Stmt = Assign(v: string, rhs: Rhs) | Other

  /** The length of the longest prefix of name characters. */
  function NameLen(s: string): (n: nat)
    ensures n <= |s|
  {
    if s != "" && NameChar(s[0]) then 1 + NameLen(s[1..]) else 0
  }

  function ParseRhs(r: string): Rhs {
    if |r| >= 3 && r[0] == '$' && r[1] == '{' && r[|r| - 1] == '}' then
      var inner := r[2..|r| - 1];
      var n := NameLen(inner);
      var rest := inner[n..];
      if n > 0 && rest == "-" then Keep(inner[..n])
      else if n > 0 && |rest| >= 2 && rest[0] == ':' && rest[1] == '-' then Default(inner[..n], rest[2..])
      else Lit(r)
    else Lit(r)
  }

  function Parse(line: string): Stmt {
    var i := IndexOf(line, '=');
    if i < |line| && IsName(line[..i]) then Assign(line[..i], ParseRhs(line[i + 1..])) else Other
  }

  type Env = map<string, string>

  function Value(env: Env, v: string): string { if v in env then env[v] else "" }

  function Eval(env: Env, r: Rhs): string {
    match r
    case Lit(t) => t
    case Keep(x) => Value(env, x)
    case Default(x, d) => if Value(env, x) != "" then Value(env, x) else d
  }

  function Exec(env: Env, line: string): Env {
    match Parse(line)
    case Assign(v, r) => env[v := Eval(env, r)]
    case Other => env
  }

  function Source(env: Env, lines: seq<string>): Env
    decreases |lines|
  {
    if lines == [] then env else Source(Exec(env, lines[0]), lines[1..])
  }

  /** The right-hand side of the last assignment to `v`. */
  function LastAssign(lines: seq<string>, v: string): Option<Rhs> {
    if lines == [] then None
    else
      var later := LastAssign(lines[1..], v);
      if later.Some? then later
      else match Parse(lines[0])
        case Assign(w, r) => if w == v then Some(r) else None
        case Other => None
  }

  lemma {:induction false} SourceAppend(env: Env, a: seq<string>, b: seq<string>)
    ensures Source(env, a + b) == Source(Source(env, a), b)
    decreases |a|
  {
    if a == [] {
      assert a + b == b;
    } else {
      SourceAppend(Exec(env, a[0]), a[1..], b);
      assert (a + b)[1..] == a[1..] + b;
    }
  }

  lemma {:induction false} LastAssignAppend(a: seq<string>, b: seq<string>, v: string)
    ensures LastAssign(a + b, v) == if LastAssign(b, v).Some? then LastAssign(b, v) else LastAssign(a, v)
  {
    if a == [] {
      assert a + b == b;
    } else {
      LastAssignAppend(a[1..], b, v);
      assert (a + b)[1..] == a[1..] + b;
    }
  }

  // ---- parsing the lines ltvm writes ---------------------------------------------------

  lemma {:induction false} NameLenStops(x: string, c: char, y: string)
    requires !NameChar(c) && forall i :: 0 <= i < |x| ==> NameChar(x[i])
    ensures NameLen(x + [c] + y) == |x|
  {
    if x != "" {
      NameLenStops(x[1..], c, y);
      assert (x + [c] + y)[1..] == x[1..] + [c] + y;
    }
  }

  lemma ParseAssign(v: string, rhs: string)
    requires IsName(v)
    ensures Parse(v + "=" + rhs) == Assign(v, ParseRhs(rhs))
  {
    var l := v + "=" + rhs;
    assert '=' !in v;
    IndexOfFirst(v, '=', rhs);
    assert l[..|v|] == v && l[|v| + 1..] == rhs;
  }

  lemma ParseDefault(x: string, d: string)
    requires IsName(x)
    ensures ParseRhs("${" + x + ":-" + d + "}") == Default(x, d)
  {
    var r := "${" + x + ":-" + d + "}";
    var inner := x + [':'] + ("-" + d);
    assert r[2..|r| - 1] == inner;
    NameLenStops(x, ':', "-" + d);
    assert inner[..|x|] == x && inner[|x|..] == ":-" + d && (":-" + d)[2..] == d;
  }

  lemma ParseKeep(x: string)
    requires IsName(x)
    ensures ParseRhs("${" + x + "-}") == Keep(x)
  {
    var r := "${" + x + "-}";
    var inner := x + ['-'] + "";
    assert r[2..|r| - 1] == inner;
    NameLenStops(x, '-', "");
    assert inner[..|x|] == x && inner[|x|..] == "-";
  }

  /** Comment lines assign nothing. */
  lemma CommentAssignsNothing(l: string)
    requires l != "" && l[0] == '#'
    ensures Parse(l) == Other
  {
  }

  lemma NameAppend(a: string, b: string)
    requires IsName(a) && forall i :: 0 <= i < |b| ==> NameChar(b[i])
    ensures IsName(a + b)
  {
  }

  // ---- settings the environment still overrides ----------------------------------------

  predicate Tracked(v: string) { v == "MDSCOUNT" || v == "OSTCOUNT" || v == "FSTYPE" }

  function EnvName(v: string): string { "_ltvm_env_" + v }

  /** Tracked variables are assigned only `${v:-d}` or `${_ltvm_env_v:-n}`, and the saved
      copies not at all. */
  ghost predicate CleanLine(l: string) {
    match Parse(l)
    case Assign(v, r) =>
      && (forall w :: Tracked(w) ==> v != EnvName(w))
      && (Tracked(v) ==> r.Default? && (r.x == v || r.x == EnvName(v)))
    case Other => true
  }

  ghost predicate Clean(lines: seq<string>) { forall i :: 0 <= i < |lines| ==> CleanLine(lines[i]) }

  /** With the environment's own value saved, the environment wins when it set the
      variable; otherwise the last block to set it does. */
  lemma {:induction false} CleanSource(env: Env, lines: seq<string>, v: string, n: string)
    requires Tracked(v) && Clean(lines)
    ensures Value(Source(env, lines), EnvName(v)) == Value(env, EnvName(v))
    ensures Value(env, EnvName(v)) != "" && Value(env, v) == Value(env, EnvName(v)) ==>
              Value(Source(env, lines), v) == Value(env, v)
    ensures Value(env, EnvName(v)) == "" && LastAssign(lines, v) == Some(Default(EnvName(v), n)) ==>
              Value(Source(env, lines), v) == n
    ensures LastAssign(lines, v).None? ==> Value(Source(env, lines), v) == Value(env, v)
    decreases |lines|
  {
    if lines != [] {
      var env1 := Exec(env, lines[0]);
      assert CleanLine(lines[0]);
      assert EnvName(v) != v;
      CleanSource(env1, lines[1..], v, n);
    }
  }

  /** A literal assignment that comes last decides, whatever the environment. */
  lemma {:induction false} LastLiteralWins(env: Env, lines: seq<string>, v: string)
    ensures LastAssign(lines, v).Some? && LastAssign(lines, v).value.Lit? ==>
              Value(Source(env, lines), v) == LastAssign(lines, v).value.text
    ensures LastAssign(lines, v).None? ==> Value(Source(env, lines), v) == Value(env, v)
    decreases |lines|
  {
    if lines != [] {
      LastLiteralWins(Exec(env, lines[0]), lines[1..], v);
    }
  }
}
