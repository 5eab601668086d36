/** What the tokens of a command line mean to Pipeline.parse, spelled out character by character. */
module ShellTokens {
  import opened Basics
  import opened ShellSyntax

  /** A word of letters, digits and "_", "=", and a value without white space; a final newline is not read. */
  predicate IsSetting(token: string, k: string, v: string) {
    && (token == k + "=" + v || token == k + "=" + v + "\n")
    && k != "" && v != ""
    && (forall i :: 0 <= i < |k| ==>
          'a' <= k[i] <= 'z' || 'A' <= k[i] <= 'Z' || '0' <= k[i] <= '9' || k[i] == '_')
    && (forall i :: 0 <= i < |v| ==> v[i] !in [' ', '\t', '\n', '\r', '\U{0B}', '\U{0C}'])
  }

  lemma MatchIsSetting(token: string, k: string, v: string)
    requires MatchEnv(token) == Some((k, v))
    ensures IsSetting(token, k, v)
  {
    var i := FirstEquals(token);
    assert token == k + "=" + token[i+1..];
    assert token[i+1..] == v || token[i+1..] == v + "\n";
    if token[i+1..] == v {
      assert token == k + "=" + v;
    } else {
      assert token == k + "=" + v + "\n";
    }
  }

  lemma SettingMatches(token: string, k: string, v: string)
    requires IsSetting(token, k, v)
    ensures MatchEnv(token) == Some((k, v))
  {
    var rest := if token == k + "=" + v then v else v + "\n";
    assert token == k + "=" + rest;
    EqualsAfter(k, rest);
    assert token[..|k|] == k && token[|k|+1..] == rest;
    assert v[|v|-1] != '\n';
    assert ChopNewline(rest) == v;
    assert EnvKey(k) && EnvValue(v);
  }

  /** Exactly these tokens are taken for a setting. */
  lemma MatchEnvIff(token: string, k: string, v: string)
    ensures MatchEnv(token) == Some((k, v)) <==> IsSetting(token, k, v)
  {
    hide MatchEnv, IsSetting;
    if MatchEnv(token) == Some((k, v)) {
      MatchIsSetting(token, k, v);
    }
    if IsSetting(token, k, v) {
      SettingMatches(token, k, v);
    }
  }

  lemma NoSetting(token: string)
    ensures MatchEnv(token) == None <==> forall k, v :: !IsSetting(token, k, v)
  {
    hide IsSetting;
    if MatchEnv(token).Some? {
      MatchEnvIff(token, MatchEnv(token).value.0, MatchEnv(token).value.1);
    }
    forall k, v | MatchEnv(token) == None
      ensures !IsSetting(token, k, v)
    {
      MatchEnvIff(token, k, v);
    }
  }

  /** env holds what the settings say: of two settings of a key the later one counts. */
  ghost predicate Holds(env: map<string, string>, kv: seq<(string, string)>) {
    && (forall k :: k in env <==> exists i :: 0 <= i < |kv| && kv[i].0 == k)
    && forall i :: 0 <= i < |kv| && (forall j :: i < j < |kv| ==> kv[j].0 != kv[i].0) ==> env[kv[i].0] == kv[i].1
  }

  predicate AreSettings(tokens: seq<string>, kv: seq<(string, string)>) {
    |tokens| == |kv| && forall i :: 0 <= i < |kv| ==> IsSetting(tokens[i], kv[i].0, kv[i].1)
  }

  lemma HoldsMore(env: map<string, string>, kv: seq<(string, string)>, k: string, v: string)
    requires Holds(env, kv)
    ensures Holds(env[k := v], kv + [(k, v)])
  {
    var more := kv + [(k, v)];
    assert more[|kv|] == (k, v);
    assert forall i :: 0 <= i < |kv| ==> more[i] == kv[i];
  }

  lemma {:induction false} ReadSettings(s: ParserState, tokens: seq<string>, kv: seq<(string, string)>)
    requires s.mode == BEGIN && Fits(s) && s.env == map[] && AreSettings(tokens, kv)
    ensures Steps(s, tokens).Ok?
    ensures var t := Steps(s, tokens).value; t == s.(env := t.env) && Holds(t.env, kv)
    decreases |tokens|
  {
    hide MatchEnv, IsSetting, Step;
    if tokens != [] {
      var n := |tokens| - 1;
      ReadSettings(s, tokens[..n], kv[..n]);
      var t := Steps(s, tokens[..n]).value;
      hide Holds;
      assert tokens == tokens[..n] + [tokens[n]] && kv == kv[..n] + [kv[n]];
      StepsConcat(s, tokens[..n], [tokens[n]]);
      StepsOne(t, tokens[n]);
      StepSetting(t, tokens[n], kv[n].0, kv[n].1);
      HoldsMore(t.env, kv[..n], kv[n].0, kv[n].1);
    } else {
      assert Holds(map[], []);
    }
  }

  lemma StepSetting(s: ParserState, token: string, k: string, v: string)
    requires s.mode == BEGIN && Fits(s) && IsSetting(token, k, v)
    ensures Step(s, token) == Ok(s.(env := s.env[k := v]))
  {
    MatchEnvIff(token, k, v);
  }

  /** Settings, a name and plain words are one command, with the words as its arguments. */
  lemma CommandLine(tokens: seq<string>, kv: seq<(string, string)>, name: string, args: seq<string>)
    requires AreSettings(tokens, kv) && name != "cd" && forall k, v :: !IsSetting(name, k, v)
    requires forall i :: 0 <= i < |args| ==> args[i] !in [">", "2>", "2>&1", "<", "|", "&&", "||"]
    ensures var r := ParseTokens(tokens + [name] + args);
      && r.Ok? && |r.value| == 1 && r.value[0].Command?
      && r.value[0] == Command(name, [name] + args, Inherit, Inherit, Inherit, r.value[0].env)
      && (tokens == [] ==> r.value[0].env == None)
      && (tokens != [] ==> r.value[0].env.Some? && Holds(r.value[0].env.value, kv))
  {
    NoSetting(name);
    hide MatchEnv, IsSetting, Holds;
    ReadSettings(START, tokens, kv);
    var s := Steps(START, tokens).value;
    if tokens != [] {
      SomeSetting(s.env, kv);
    } else {
      StepsNone(START);
    }
    var t := ParserState(COMMAND, Some(NewCommand(name, s.env)), [], map[]);
    assert Step(s, name) == Ok(t);
    StepsOne(s, name);
    StepsConcat(START, tokens, [name]);
    ParseArgs(t, args);
    StepsConcat(START, tokens + [name], args);
  }

  lemma SomeSetting(env: map<string, string>, kv: seq<(string, string)>)
    requires Holds(env, kv) && kv != []
    ensures env != map[]
  {
    assert kv[0].0 in env;
  }

  /** The tokens behind a command, or a cd, and what each of them does to the pipeline. */
  lemma OperatorsMean(s: ParserState)
    requires Fits(s) && (s.mode == COMMAND || s.mode == CHDIR)
    ensures Step(s, "&&") == Ok(ParserState(BEGIN, None, s.pipeline + [s.current.value, And], map[]))
    ensures s.mode == COMMAND ==>
      Step(s, "||") == Ok(ParserState(BEGIN, None, s.pipeline + [s.current.value, Or], map[]))
    ensures s.mode == COMMAND && s.current.value.stdout == Inherit ==>
      Step(s, "|") == Ok(ParserState(BEGIN, None, s.pipeline + [s.current.value.(stdout := Pipe), PipeOp], map[]))
  {
  }

  /** Where a redirection goes, and that what follows its target is an argument again. */
  lemma RedirectionsMean(s: ParserState, f: string, word: string)
    requires Fits(s) && s.mode == COMMAND && word !in [">", "2>", "2>&1", "<", "|", "&&", "||"]
    ensures var cmd := s.current.value; var more := cmd.(argv := cmd.argv + [word]);
      && (cmd.stdin == Inherit ==> Steps(s, ["<", f, word]) == Ok(s.(current := Some(more.(stdin := File(f))))))
      && (cmd.stdout == Inherit ==> Steps(s, [">", f, word]) == Ok(s.(current := Some(more.(stdout := File(f))))))
      && (cmd.stderr == Inherit ==> Steps(s, ["2>", f, word]) == Ok(s.(current := Some(more.(stderr := File(f))))))
      && (cmd.stderr == Inherit ==> Steps(s, ["2>&1", word]) == Ok(s.(current := Some(more.(stderr := Stdout)))))
  {
    hide Step, Steps;
    assert forall op :: [op, f] + [word] == [op, f, word];
    assert ["2>&1"] + [word] == ["2>&1", word];
    var cmd := s.current.value;
    if cmd.stdin == Inherit {
      ParseRedirect(s, "<", File(f));
      ThenWord(s, ["<", f], s.(current := Some(cmd.(stdin := File(f)))), word);
    }
    if cmd.stdout == Inherit {
      ParseRedirect(s, ">", File(f));
      ThenWord(s, [">", f], s.(current := Some(cmd.(stdout := File(f)))), word);
    }
    if cmd.stderr == Inherit {
      ParseRedirect(s, "2>", File(f));
      ThenWord(s, ["2>", f], s.(current := Some(cmd.(stderr := File(f)))), word);
      ParseMerge(s);
      ThenWord(s, ["2>&1"], s.(current := Some(cmd.(stderr := Stdout))), word);
    }
  }

  lemma ThenWord(s: ParserState, tokens: seq<string>, t: ParserState, word: string)
    requires Fits(s) && Steps(s, tokens) == Ok(t) && Fits(t) && t.mode == COMMAND
    requires word !in [">", "2>", "2>&1", "<", "|", "&&", "||"]
    ensures var cmd := t.current.value;
      Steps(s, tokens + [word]) == Ok(t.(current := Some(cmd.(argv := cmd.argv + [word]))))
  {
    StepsConcat(s, tokens, [word]);
    ParseArgs(t, [word]);
  }

  lemma ThreeSteps(s: ParserState, a: string, b: string, c: string)
    requires Fits(s)
    ensures Steps(s, [a, b, c]) ==
      match Step(s, a)
      case AssertionError => AssertionError
      case Ok(t) => match Step(t, b) case AssertionError => AssertionError case Ok(u) => Step(u, c)
  {
    hide Step;
    assert [a, b, c][1..] == [b, c] && [b, c][1..] == [c];
    if Step(s, a).Ok? && Step(Step(s, a).value, b).Ok? {
      StepsOne(Step(Step(s, a).value, b).value, c);
    }
  }

  /** cd and its directory. */
  lemma ChdirMeans(s: ParserState, dir: string)
    requires Fits(s) && s.mode == BEGIN && s.env == map[] && dir != "&&"
    ensures Steps(s, ["cd", dir, "&&"])
         == Ok(ParserState(BEGIN, None, s.pipeline + [Chdir(Some(dir)), And], map[]))
  {
    assert FirstEquals("cd") == 2;
    ThreeSteps(s, "cd", dir, "&&");
  }
}
