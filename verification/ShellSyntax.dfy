/**
 The nodes of a shellcmd.py pipeline, the token automaton of Pipeline.parse as a function, the set
 of pipelines it can return, and tokens from which parse returns each of them.
 */
module ShellSyntax {
  import opened Basics

  /** A redirection: Python's None, Command.PIPE, Command.STDOUT, or a file name. */
  datatype Target = Inherit | Pipe | Stdout | File(name: string)

  datatype Node =
    | Command(name: string, argv: seq<string>, stdin: Target, stdout: Target, stderr: Target,
              env: Option<map<string, string>>)
    | Chdir(dir: Option<string>)
    | PipeOp
    | And
    | Or

  /** Every way parse can fail is a failed assert. */
  datatype Result<+T> = Ok(value: T) | AssertionError

  // ---------------------------------------------------------------- environment settings

  /** Line 23: the regular expression env_var_rx. */
  predicate WordChar(c: char) {
    'a' <= c <= 'z' || 'A' <= c <= 'Z' || '0' <= c <= '9' || c == '_'
  }

  predicate SpaceChar(c: char) {
    c in " \t\n\r\U{0B}\U{0C}"
  }

  predicate EnvKey(s: string) {
    s != "" && forall i :: 0 <= i < |s| ==> WordChar(s[i])
  }

  predicate EnvValue(s: string) {
    s != "" && forall i :: 0 <= i < |s| ==> !SpaceChar(s[i])
  }

  function FirstEquals(s: string): (i: nat)
    ensures i <= |s| && '=' !in s[..i] && (i < |s| ==> s[i] == '=')
  {
    if s == "" || s[0] == '=' then 0
    else
      var i := 1 + FirstEquals(s[1..]);
      assert s[..i] == [s[0]] + s[1..][..i-1];
      i
  }

  function MatchEnv(token: string): Option<(string, string)> {
    var i := FirstEquals(token);
    if i < |token| && EnvKey(token[..i]) && EnvValue(ChopNewline(token[i+1..])) then
      Some((token[..i], ChopNewline(token[i+1..])))
    else
      None
  }

  lemma {:induction false} EqualsAfter(key: string, rest: string)
    requires '=' !in key
    ensures FirstEquals(key + "=" + rest) == |key|
  {
    var token := key + "=" + rest;
    if key != "" {
      assert token[0] == key[0];
      assert token[1..] == key[1..] + "=" + rest;
      EqualsAfter(key[1..], rest);
    }
  }

  lemma MatchSetting(key: string, value: string)
    requires EnvKey(key) && EnvValue(value)
    ensures MatchEnv(key + "=" + value) == Some((key, value))
  {
    var token := key + "=" + value;
    EqualsAfter(key, value);
    assert token[..|key|] == key && token[|key|+1..] == value;
    assert !SpaceChar(value[|value|-1]);
  }

  // ---------------------------------------------------------------- the automaton

  datatype Mode = BEGIN | COMMAND | CHDIR | STDERR | STDOUT | STDIN

  /** The variables of parse: state, current_command, pipeline and env_vars. */
  datatype ParserState = ParserState(mode: Mode, current: Option<Node>, pipeline: seq<Node>, env: map<string, string>)

  const START := ParserState(BEGIN, None, [], map[])

  function NewCommand(name: string, env: map<string, string>): (r: Node)
    ensures r.Command? && r.name == name
  {
    Command(name, [name], Inherit, Inherit, Inherit, if env == map[] then None else Some(env))
  }

  /** A state fits its mode: only BEGIN has no current command, and CHDIR has a Chdir. */
  predicate Fits(s: ParserState) {
    match s.mode
    case BEGIN => s.current == None
    case CHDIR => s.current.Some? && s.current.value.Chdir? && s.env == map[]
    case _ => s.current.Some? && s.current.value.Command? && s.env == map[]
  }

  function CommitWith(s: ParserState, op: Node): ParserState
    requires s.current.Some?
  {
    ParserState(BEGIN, None, s.pipeline + [s.current.value, op], map[])
  }

  function StepBegin(s: ParserState, token: string): Result<ParserState>
    requires Fits(s) && s.mode == BEGIN
  {
    var m := MatchEnv(token);
    if m.Some? then Ok(s.(env := s.env[m.value.0 := m.value.1]))
    else if token == "cd" then
      if s.env != map[] then AssertionError
      else Ok(s.(mode := CHDIR, current := Some(Chdir(None))))
    else Ok(s.(mode := COMMAND, current := Some(NewCommand(token, s.env)), env := map[]))
  }

  function StepCommand(s: ParserState, token: string): Result<ParserState>
    requires Fits(s) && s.mode == COMMAND
  {
    var cmd := s.current.value;
    if token == ">" then Ok(s.(mode := STDOUT))
    else if token == "2>" then Ok(s.(mode := STDERR))
    else if token == "2>&1" then
      if cmd.stderr != Inherit then AssertionError else Ok(s.(current := Some(cmd.(stderr := Stdout))))
    else if token == "<" then Ok(s.(mode := STDIN))
    else if token == "|" then
      if cmd.stdout != Inherit then AssertionError
      else Ok(CommitWith(s.(current := Some(cmd.(stdout := Pipe))), PipeOp))
    else if token == "&&" then Ok(CommitWith(s, And))
    else if token == "||" then Ok(CommitWith(s, Or))
    else Ok(s.(current := Some(cmd.(argv := cmd.argv + [token]))))
  }

  function Step(s: ParserState, token: string): (r: Result<ParserState>)
    requires Fits(s)
    ensures r.Ok? ==> Fits(r.value)
  {
    match s.mode
    case BEGIN => StepBegin(s, token)
    case COMMAND => StepCommand(s, token)
    case CHDIR =>
      if token == "&&" then Ok(CommitWith(s, And))
      else if s.current.value.dir != None then AssertionError
      else Ok(s.(current := Some(Chdir(Some(token)))))
    case STDOUT =>
      var cmd := s.current.value;
      if cmd.stdout != Inherit then AssertionError
      else Ok(s.(mode := COMMAND, current := Some(cmd.(stdout := File(token)))))
    case STDERR =>
      var cmd := s.current.value;
      if cmd.stderr != Inherit then AssertionError
      else Ok(s.(mode := COMMAND, current := Some(cmd.(stderr := File(token)))))
    case STDIN =>
      var cmd := s.current.value;
      if cmd.stdin != Inherit then AssertionError
      else Ok(s.(mode := COMMAND, current := Some(cmd.(stdin := File(token)))))
  }

  function Steps(s: ParserState, tokens: seq<string>): (r: Result<ParserState>)
    requires Fits(s)
    ensures r.Ok? ==> Fits(r.value)
    decreases tokens
  {
    if tokens == [] then Ok(s)
    else match Step(s, tokens[0])
      case AssertionError => AssertionError
      case Ok(next) => Steps(next, tokens[1..])
  }

  /** The final _commit_command; a redirection left without its target is simply dropped. */
  function Finish(r: Result<ParserState>): Result<seq<Node>> {
    if r.Ok? && r.value.current.Some? then Ok(r.value.pipeline + [r.value.current.value])
    else AssertionError
  }

  function ParseTokens(tokens: seq<string>): Result<seq<Node>> {
    Finish(Steps(START, tokens))
  }

  lemma {:induction false} StepsConcat(s: ParserState, a: seq<string>, b: seq<string>)
    requires Fits(s)
    ensures Steps(s, a + b) == match Steps(s, a) case Ok(t) => Steps(t, b) case AssertionError => AssertionError
    decreases a
  {
    if a == [] {
      assert a + b == b;
    } else {
      assert (a + b)[0] == a[0] && (a + b)[1..] == a[1..] + b;
      if Step(s, a[0]).Ok? {
        StepsConcat(Step(s, a[0]).value, a[1..], b);
      }
    }
  }

  // ---------------------------------------------------------------- well-formed pipelines

  const OPERATORS := [">", "2>", "2>&1", "<", "|", "&&", "||"]

  predicate GoodEnv(env: map<string, string>) {
    forall k :: k in env ==> EnvKey(k) && EnvValue(env[k])
  }

  predicate GoodCommand(n: Node) {
    && n.Command?
    && n.argv != [] && n.argv[0] == n.name
    && MatchEnv(n.name) == None && n.name != "cd"
    && (forall i :: 1 <= i < |n.argv| ==> n.argv[i] !in OPERATORS)
    && (n.stdin == Inherit || n.stdin.File?)
    && n.stdout != Stdout
    && n.stderr != Pipe
    && (n.env.Some? ==> n.env.value != map[] && GoodEnv(n.env.value))
  }

  predicate GoodChdir(n: Node) {
    n.Chdir? && n.dir != Some("&&")
  }

  predicate GoodLast(n: Node) {
    (GoodCommand(n) && n.stdout != Pipe) || GoodChdir(n)
  }

  /** stdout is PIPE exactly before a Pipe, and a Chdir is followed by And. */
  predicate GoodPair(n: Node, op: Node) {
    || (GoodCommand(n) && op in [PipeOp, And, Or] && (n.stdout == Pipe <==> op == PipeOp))
    || (GoodChdir(n) && op == And)
  }

  /** An alternation of nodes and operators that begins and ends with a node. */
  predicate WellFormed(p: seq<Node>) {
    if |p| < 2 then |p| == 1 && GoodLast(p[0])
    else GoodPair(p[0], p[1]) && WellFormed(p[2..])
  }

  /** Any number of node-operator pairs. */
  predicate GoodPairs(p: seq<Node>) {
    if |p| < 2 then p == [] else GoodPair(p[0], p[1]) && GoodPairs(p[2..])
  }

  lemma {:induction false} AddPair(p: seq<Node>, n: Node, op: Node)
    requires GoodPairs(p) && GoodPair(n, op)
    ensures GoodPairs(p + [n, op])
    decreases p
  {
    if p == [] {
      assert p + [n, op] == [n, op];
      assert [n, op][2..] == [];
    } else {
      AddPair(p[2..], n, op);
      assert (p + [n, op])[2..] == p[2..] + [n, op];
    }
  }

  lemma {:induction false} AddLast(p: seq<Node>, n: Node)
    requires GoodPairs(p) && GoodLast(n)
    ensures WellFormed(p + [n])
    decreases p
  {
    if p == [] {
      assert p + [n] == [n];
    } else {
      AddLast(p[2..], n);
      assert (p + [n])[2..] == p[2..] + [n];
    }
  }

  ghost predicate GoodState(s: ParserState) {
    && Fits(s) && GoodPairs(s.pipeline) && GoodEnv(s.env)
    && (s.current.Some? ==> GoodLast(s.current.value))
  }

  lemma BeginKeepsGood(s: ParserState, token: string)
    requires GoodState(s) && s.mode == BEGIN && StepBegin(s, token).Ok?
    ensures GoodState(StepBegin(s, token).value)
  {
    hide EnvKey, EnvValue, GoodPairs;
    if MatchEnv(token) == None && token != "cd" {
      assert GoodCommand(NewCommand(token, s.env));
    }
  }

  lemma CommitKeepsGood(s: ParserState, op: Node)
    requires Fits(s) && GoodPairs(s.pipeline) && s.current.Some? && GoodPair(s.current.value, op)
    ensures GoodState(CommitWith(s, op))
  {
    AddPair(s.pipeline, s.current.value, op);
  }

  lemma StepKeepsGood(s: ParserState, token: string)
    requires GoodState(s) && Step(s, token).Ok?
    ensures GoodState(Step(s, token).value)
  {
    hide MatchEnv, GoodEnv, GoodPairs;
    if s.mode == BEGIN {
      BeginKeepsGood(s, token);
    } else if Step(s, token).value.mode == BEGIN {
      var piped := s.mode == COMMAND && token == "|";
      var op := if piped then PipeOp else if token == "&&" then And else Or;
      CommitKeepsGood(if piped then s.(current := Some(s.current.value.(stdout := Pipe))) else s, op);
    }
  }

  lemma {:induction false} StepsKeepGood(s: ParserState, tokens: seq<string>)
    requires GoodState(s) && Steps(s, tokens).Ok?
    ensures GoodState(Steps(s, tokens).value)
    decreases tokens
  {
    if tokens != [] {
      StepKeepsGood(s, tokens[0]);
      StepsKeepGood(Step(s, tokens[0]).value, tokens[1..]);
    }
  }

  lemma ParseIsWellFormed(tokens: seq<string>)
    requires ParseTokens(tokens).Ok?
    ensures WellFormed(ParseTokens(tokens).value)
  {
    StepsKeepGood(START, tokens);
    var s := Steps(START, tokens).value;
    AddLast(s.pipeline, s.current.value);
  }

  // ---------------------------------------------------------------- printing

  /** A dictionary iteration order: each key once. */
  ghost predicate Enumerates(keys: seq<string>, s: set<string>) {
    && (forall k :: k in keys <==> k in s)
    && forall i, j :: 0 <= i < j < |keys| ==> keys[i] != keys[j]
  }

  ghost predicate KeyOrder(order: map<string, string> -> seq<string>) {
    forall m :: Enumerates(order(m), m.Keys)
  }

  function Settings(keys: seq<string>, env: map<string, string>): seq<string>
    requires forall k :: k in keys ==> k in env
  {
    seq(|keys|, i requires 0 <= i < |keys| => assert keys[i] in keys; keys[i] + "=" + env[keys[i]])
  }

  function Redirect(op: string, t: Target): seq<string> {
    if t.File? then [op, t.name] else []
  }

  /** Tokens for a node: settings, argv, then "<", ">" and "2>" or "2>&1", the order in which run displays them. */
  function PrintNode(n: Node, order: map<string, string> -> seq<string>): seq<string>
    requires KeyOrder(order)
  {
    match n
    case PipeOp => ["|"]
    case And => ["&&"]
    case Or => ["||"]
    case Chdir(dir) => ["cd"] + if dir.Some? then [dir.value] else []
    case Command(name, argv, stdin, stdout, stderr, env) =>
      assert env.Some? ==> Enumerates(order(env.value), env.value.Keys);
      (if env.Some? then Settings(order(env.value), env.value) else []) + argv
      + Redirect("<", stdin) + Redirect(">", stdout)
      + if stderr == Stdout then ["2>&1"] else Redirect("2>", stderr)
  }

  ghost function Print(p: seq<Node>, order: map<string, string> -> seq<string>): seq<string>
    requires KeyOrder(order)
  {
    if p == [] then [] else PrintNode(p[0], order) + Print(p[1..], order)
  }

  /** The part of env under the first i keys. */
  ghost function Partial(env: map<string, string>, keys: seq<string>): map<string, string> {
    map k | k in env && k in keys :: env[k]
  }

  lemma {:induction false} ParseSettings(s: ParserState, keys: seq<string>, env: map<string, string>, i: nat)
    requires s.mode == BEGIN && Fits(s)
    requires GoodEnv(env) && Enumerates(keys, env.Keys) && i <= |keys| && s.env == Partial(env, keys[..i])
    ensures Steps(s, Settings(keys, env)[i..]) == Ok(s.(env := env))
    decreases |keys| - i
  {
    hide GoodEnv, Step, Partial;
    if i == |keys| {
      assert keys[..i] == keys;
      AllKeys(env, keys);
    } else {
      var rest := Settings(keys, env)[i..];
      ParseSetting(s, keys, env, i);
      assert rest[1..] == Settings(keys, env)[i+1..];
      ParseSettings(Step(s, rest[0]).value, keys, env, i + 1);
    }
  }

  lemma AllKeys(env: map<string, string>, keys: seq<string>)
    requires Enumerates(keys, env.Keys)
    ensures Partial(env, keys) == env
  {
  }

  /** One setting more. */
  lemma ParseSetting(s: ParserState, keys: seq<string>, env: map<string, string>, i: nat)
    requires s.mode == BEGIN && Fits(s) && GoodEnv(env) && i < |keys|
    requires (forall k :: k in keys ==> k in env) && s.env == Partial(env, keys[..i])
    ensures Step(s, Settings(keys, env)[i]) == Ok(s.(env := Partial(env, keys[..i+1])))
  {
    hide MatchEnv, EnvKey, EnvValue;
    var k := keys[i];
    assert k in keys;
    MatchSetting(k, env[k]);
    assert keys[..i+1] == keys[..i] + [k];
    assert s.env[k := env[k]] == Partial(env, keys[..i+1]);
  }

  lemma {:induction false} ParseArgs(s: ParserState, args: seq<string>)
    requires Fits(s) && s.mode == COMMAND && forall i :: 0 <= i < |args| ==> args[i] !in OPERATORS
    ensures Steps(s, args) == Ok(s.(current := Some(s.current.value.(argv := s.current.value.argv + args))))
    decreases args
  {
    var cmd := s.current.value;
    if args == [] {
      assert cmd.argv + args == cmd.argv;
    } else {
      assert args[0] !in OPERATORS;
      assert forall op :: op in OPERATORS ==> args[0] != op;
      assert ">" in OPERATORS && "2>" in OPERATORS && "2>&1" in OPERATORS && "<" in OPERATORS
          && "|" in OPERATORS && "&&" in OPERATORS && "||" in OPERATORS;
      var next := s.(current := Some(cmd.(argv := cmd.argv + [args[0]])));
      assert Step(s, args[0]) == Ok(next);
      ParseArgs(next, args[1..]);
      assert cmd.argv + [args[0]] + args[1..] == cmd.argv + args;
    }
  }

  lemma StepsNone(s: ParserState)
    requires Fits(s)
    ensures Steps(s, []) == Ok(s)
  {
  }

  lemma StepsOne(s: ParserState, t: string)
    requires Fits(s)
    ensures Steps(s, [t]) == Step(s, t)
  {
    assert [t][1..] == [];
  }

  lemma ParseRedirect(s: ParserState, op: string, t: Target)
    requires Fits(s) && s.mode == COMMAND && op in ["<", ">", "2>"]
    requires op == "<" ==> s.current.value.stdin == Inherit
    requires op == ">" ==> s.current.value.stdout == Inherit
    requires op == "2>" ==> s.current.value.stderr == Inherit
    ensures Steps(s, Redirect(op, t)) == Ok(
      if !t.File? then s
      else if op == "<" then s.(current := Some(s.current.value.(stdin := t)))
      else if op == ">" then s.(current := Some(s.current.value.(stdout := t)))
      else s.(current := Some(s.current.value.(stderr := t))))
  {
    if t.File? {
      var mid := s.(mode := if op == "<" then STDIN else if op == ">" then STDOUT else STDERR);
      assert Step(s, op) == Ok(mid);
      assert Redirect(op, t)[1..] == [t.name];
      StepsOne(mid, t.name);
    }
  }

  lemma ParseMerge(s: ParserState)
    requires Fits(s) && s.mode == COMMAND && s.current.value.stderr == Inherit
    ensures Steps(s, ["2>&1"]) == Ok(s.(current := Some(s.current.value.(stderr := Stdout))))
  {
    StepsOne(s, "2>&1");
  }

  /** A command as parse holds it before the operator is seen: stdout is not PIPE yet. */
  function Unpiped(n: Node): Node
    requires n.Command?
  {
    if n.stdout == Pipe then n.(stdout := Inherit) else n
  }

  lemma ParseCommand(pipeline: seq<Node>, n: Node, order: map<string, string> -> seq<string>)
    requires KeyOrder(order) && GoodCommand(n)
    ensures Steps(ParserState(BEGIN, None, pipeline, map[]), PrintNode(n, order))
         == Ok(ParserState(COMMAND, Some(Unpiped(n)), pipeline, map[]))
  {
    hide Step, Steps, MatchEnv;
    var s0 := ParserState(BEGIN, None, pipeline, map[]);
    var env := if n.env.Some? then n.env.value else map[];
    var keys := if n.env.Some? then order(env) else [];
    assert n.env.Some? ==> Enumerates(order(env), env.Keys);
    var t0 := if n.env.Some? then Settings(keys, env) else [];
    var s1 := s0.(env := env);
    if n.env.Some? {
      assert t0[0..] == t0;
      ParseSettings(s0, keys, env, 0);
    } else {
      StepsNone(s0);
    }
    ParseArgv(s1, n);
    var s2 := ParserState(COMMAND, Some(Bare(n, env)), pipeline, map[]);
    StepsConcat(s0, t0, n.argv);
    var t1 := t0 + n.argv;
    var t2 := t1 + Redirect("<", n.stdin);
    var t3 := t2 + Redirect(">", n.stdout);
    var t4 := if n.stderr == Stdout then ["2>&1"] else Redirect("2>", n.stderr);
    ParseRedirect(s2, "<", n.stdin);
    StepsConcat(s0, t1, Redirect("<", n.stdin));
    var s3 := Steps(s0, t2).value;
    ParseRedirect(s3, ">", n.stdout);
    StepsConcat(s0, t2, Redirect(">", n.stdout));
    var s4 := Steps(s0, t3).value;
    if n.stderr == Stdout {
      ParseMerge(s4);
    } else {
      ParseRedirect(s4, "2>", n.stderr);
    }
    StepsConcat(s0, t3, t4);
    assert PrintNode(n, order) == t3 + t4;
  }

  /** The settings and the argv of n, without its redirections. */
  function Bare(n: Node, env: map<string, string>): Node
    requires n.Command?
  {
    Command(n.name, n.argv, Inherit, Inherit, Inherit, if env == map[] then None else Some(env))
  }

  lemma ParseArgv(s: ParserState, n: Node)
    requires Fits(s) && s.mode == BEGIN && GoodCommand(n)
    ensures Steps(s, n.argv)
         == Ok(ParserState(COMMAND, Some(Bare(n, s.env)), s.pipeline, map[]))
  {
    var next := ParserState(COMMAND, Some(NewCommand(n.name, s.env)), s.pipeline, map[]);
    assert Step(s, n.argv[0]) == Ok(next);
    ParseArgs(next, n.argv[1..]);
    assert [n.name] + n.argv[1..] == n.argv;
  }

  lemma ParseChdir(done: seq<Node>, n: Node, order: map<string, string> -> seq<string>)
    requires KeyOrder(order) && GoodChdir(n)
    ensures Steps(ParserState(BEGIN, None, done, map[]), PrintNode(n, order))
         == Ok(ParserState(CHDIR, Some(n), done, map[]))
  {
    var s := ParserState(BEGIN, None, done, map[]);
    var s1 := ParserState(CHDIR, Some(Chdir(None)), done, map[]);
    assert FirstEquals("cd") == 2;
    assert Step(s, "cd") == Ok(s1);
    StepsOne(s, "cd");
    if n.dir.Some? {
      StepsOne(s1, n.dir.value);
      StepsConcat(s, ["cd"], [n.dir.value]);
    }
  }

  function Between(done: seq<Node>): ParserState {
    ParserState(BEGIN, None, done, map[])
  }

  /** Where the automaton is once all tokens of n have been read. */
  function AfterNode(done: seq<Node>, n: Node): ParserState {
    ParserState(if n.Chdir? then CHDIR else COMMAND, Some(if n.Command? then Unpiped(n) else n), done, map[])
  }

  lemma ParseNode(done: seq<Node>, n: Node, order: map<string, string> -> seq<string>)
    requires KeyOrder(order) && (GoodCommand(n) || GoodChdir(n))
    ensures Steps(Between(done), PrintNode(n, order)) == Ok(AfterNode(done, n))
    ensures Fits(AfterNode(done, n))
  {
    if n.Chdir? {
      ParseChdir(done, n, order);
    } else {
      ParseCommand(done, n, order);
    }
  }

  lemma ParseOperator(done: seq<Node>, n: Node, op: Node, order: map<string, string> -> seq<string>)
    requires KeyOrder(order) && GoodPair(n, op) && Fits(AfterNode(done, n))
    ensures Steps(AfterNode(done, n), PrintNode(op, order)) == Ok(Between(done + [n, op]))
  {
    StepsOne(AfterNode(done, n), PrintNode(op, order)[0]);
  }

  lemma {:induction false} ParsePrinted(done: seq<Node>, p: seq<Node>, order: map<string, string> -> seq<string>)
    requires KeyOrder(order) && WellFormed(p)
    ensures Finish(Steps(Between(done), Print(p, order))) == Ok(done + p)
    decreases p
  {
    hide KeyOrder, GoodCommand, PrintNode, Step;
    var t0 := PrintNode(p[0], order);
    ParseNode(done, p[0], order);
    StepsConcat(Between(done), t0, Print(p[1..], order));
    if |p| == 1 {
      assert p[1..] == [] && p == [p[0]];
    } else {
      var t1 := PrintNode(p[1], order);
      assert p[1..][1..] == p[2..] && p[1..][0] == p[1];
      ParseOperator(done, p[0], p[1], order);
      StepsConcat(AfterNode(done, p[0]), t1, Print(p[2..], order));
      ParsePrinted(done + [p[0], p[1]], p[2..], order);
      assert done + [p[0], p[1]] + p[2..] == done + p;
    }
  }

  /** Printing and parsing again gives the same pipeline, whatever the order of the settings. */
  lemma RoundTrip(p: seq<Node>, order: map<string, string> -> seq<string>)
    requires KeyOrder(order) && WellFormed(p)
    ensures ParseTokens(Print(p, order)) == Ok(p)
  {
    ParsePrinted([], p, order);
    assert [] + p == p;
  }

  /** Some key order exists. */
  ghost function AnyOrder(s: set<string>): (keys: seq<string>)
    ensures Enumerates(keys, s)
  {
    if s == {} then [] else
      var k :| k in s;
      [k] + AnyOrder(s - {k})
  }

  /** The pipelines that parse can return are exactly the well-formed ones. */
  lemma RangeOfParse(p: seq<Node>)
    ensures WellFormed(p) <==> exists tokens :: ParseTokens(tokens) == Ok(p)
  {
    if WellFormed(p) {
      RoundTrip(p, (m: map<string, string>) => AnyOrder(m.Keys));
    }
    forall tokens | ParseTokens(tokens) == Ok(p)
      ensures WellFormed(p)
    {
      ParseIsWellFormed(tokens);
    }
  }
}
