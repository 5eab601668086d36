/** The token lists that Pipeline.parse refuses: where an assert fails, and that there are no others. */
module ShellRefusals {
  import opened Basics
  import opened ShellSyntax

  /** The asserts of lines 145, 159, 164, 185, 188, 192 and 196. */
  predicate Refuses(s: ParserState, token: string)
    requires Fits(s)
  {
    match s.mode
    case BEGIN => token == "cd" && s.env != map[]
    case COMMAND =>
      || (token == "|" && s.current.value.stdout != Inherit)
      || (token == "2>&1" && s.current.value.stderr != Inherit)
    case CHDIR => token != "&&" && s.current.value.dir != None
    case STDOUT => s.current.value.stdout != Inherit
    case STDERR => s.current.value.stderr != Inherit
    case STDIN => s.current.value.stdin != Inherit
  }

  lemma StepRefuses(s: ParserState, token: string)
    requires Fits(s)
    ensures Step(s, token) == AssertionError <==> Refuses(s, token)
  {
    if token == "cd" {
      NotASetting();
    }
    hide MatchEnv;
  }

  lemma NotASetting()
    ensures MatchEnv("cd") == None
  {
    assert FirstEquals("cd") == 2;
  }

  lemma {:induction false} StepsRefuse(s: ParserState, tokens: seq<string>)
    requires Fits(s)
    ensures Steps(s, tokens) == AssertionError <==> RefusedSomewhere(s, tokens)
    decreases tokens
  {
    hide Step, Refuses;
    if tokens != [] {
      StepRefuses(s, tokens[0]);
      var next := Step(s, tokens[0]);
      if next == AssertionError {
        assert RefusedAt(s, tokens, 0);
      } else {
        StepsRefuse(next.value, tokens[1..]);
        forall i | 0 <= i < |tokens| - 1
          ensures RefusedAt(next.value, tokens[1..], i) <==> RefusedAt(s, tokens, i + 1)
        {
          assert tokens[..i+1][1..] == tokens[1..][..i] && tokens[..i+1][0] == tokens[0];
        }
        if RefusedSomewhere(s, tokens) {
          var j :| 0 <= j < |tokens| && RefusedAt(s, tokens, j);
          assert j > 0 && RefusedAt(next.value, tokens[1..], j - 1);
        }
      }
    }
  }

  predicate RefusedAt(s: ParserState, tokens: seq<string>, i: nat)
    requires Fits(s) && i < |tokens|
  {
    Steps(s, tokens[..i]).Ok? && Refuses(Steps(s, tokens[..i]).value, tokens[i])
  }

  ghost predicate RefusedSomewhere(s: ParserState, tokens: seq<string>)
    requires Fits(s)
  {
    exists i :: 0 <= i < |tokens| && RefusedAt(s, tokens, i)
  }

  /** A line is refused exactly if one of the asserts fails on a token, or it ends where a node has to begin. */
  lemma RefusedIff(tokens: seq<string>)
    ensures ParseTokens(tokens) == AssertionError <==>
      RefusedSomewhere(START, tokens) || (Steps(START, tokens).Ok? && Steps(START, tokens).value.mode == BEGIN)
  {
    StepsRefuse(START, tokens);
    hide RefusedSomewhere;
  }

  /** What parse leaves in its fields when an assert fails. */
  ghost predicate LeftBy(tokens: seq<string>, current: Option<Node>, pipeline: seq<Node>) {
    || (exists i :: 0 <= i < |tokens| && LeftAt(tokens, i, current, pipeline))
    || (Steps(START, tokens).Ok?
        && Steps(START, tokens).value == ParserState(BEGIN, current, pipeline, Steps(START, tokens).value.env))
  }

  /** The i-th token is refused: what has been committed, and the command that has begun. */
  predicate LeftAt(tokens: seq<string>, i: nat, current: Option<Node>, pipeline: seq<Node>)
    requires i < |tokens|
  {
    && RefusedAt(START, tokens, i)
    && var s := Steps(START, tokens[..i]).value;
      pipeline == s.pipeline && current == if s.mode == BEGIN then Some(Chdir(None)) else s.current
  }

  lemma LeavesAt(tokens: seq<string>, i: nat, s: ParserState)
    requires i < |tokens| && Fits(s) && Steps(START, tokens[..i]) == Ok(s) && Step(s, tokens[i]) == AssertionError
    ensures LeftBy(tokens, if s.mode == BEGIN then Some(Chdir(None)) else s.current, s.pipeline)
  {
    StepRefuses(s, tokens[i]);
    hide Step, Refuses;
    assert LeftAt(tokens, i, if s.mode == BEGIN then Some(Chdir(None)) else s.current, s.pipeline);
  }

  lemma StepsMore(tokens: seq<string>, i: nat, s: ParserState)
    requires i < |tokens| && Fits(s) && Steps(START, tokens[..i]) == Ok(s)
    ensures Steps(START, tokens[..i+1]) == Step(s, tokens[i])
  {
    hide Step;
    assert tokens[..i+1] == tokens[..i] + [tokens[i]];
    StepsConcat(START, tokens[..i], [tokens[i]]);
    StepsOne(s, tokens[i]);
  }

  // ---------------------------------------------------------------- any line, from any point on

  /** The states that parse is in after a beginning of the line. */
  predicate Reaches(before: seq<string>, s: ParserState) {
    Steps(START, before) == Ok(s)
  }

  lemma FailsFrom(before: seq<string>, s: ParserState, tokens: seq<string>, rest: seq<string>)
    requires Reaches(before, s) && Fits(s) && Steps(s, tokens) == AssertionError
    ensures ParseTokens(before + tokens + rest) == AssertionError
  {
    StepsConcat(START, before, tokens);
    StepsConcat(START, before + tokens, rest);
  }

  lemma {:induction false} PipelineGrows(s: ParserState, tokens: seq<string>)
    requires Fits(s) && Steps(s, tokens).Ok?
    ensures |s.pipeline| <= |Steps(s, tokens).value.pipeline|
    decreases tokens
  {
    hide MatchEnv;
    if tokens != [] {
      PipelineGrows(Step(s, tokens[0]).value, tokens[1..]);
    }
  }

  /** What is redirected stays redirected. */
  predicate Keeps(a: Node, b: Node)
    requires a.Command? && b.Command?
  {
    && (a.stdin != Inherit ==> b.stdin == a.stdin)
    && (a.stdout != Inherit ==> b.stdout == a.stdout)
    && (a.stderr != Inherit ==> b.stderr == a.stderr)
  }

  /** As long as no node is committed, the current command keeps its redirections. */
  lemma {:induction false} SameCommand(s: ParserState, tokens: seq<string>)
    requires Fits(s) && s.mode != BEGIN && s.mode != CHDIR && Steps(s, tokens).Ok?
    requires |Steps(s, tokens).value.pipeline| == |s.pipeline|
    ensures var t := Steps(s, tokens).value;
      t.mode != BEGIN && t.mode != CHDIR && Keeps(s.current.value, t.current.value)
    decreases tokens
  {
    if tokens != [] {
      var next := Step(s, tokens[0]).value;
      PipelineGrows(next, tokens[1..]);
      SameCommand(next, tokens[1..]);
    }
  }

  /**
   Wherever a command has redirected a stream, it cannot redirect it again, nor send to a pipe what goes to
   a file: more stands for any tokens that still belong to the command.
   */
  lemma SecondRedirectionFails(before: seq<string>, s: ParserState, op: string, f: string, more: seq<string>,
                               t: ParserState, g: string, rest: seq<string>)
    requires Reaches(before, s) && Fits(s) && s.mode == COMMAND && op in ["<", ">", "2>"]
    requires Reaches(before + [op, f] + more, t) && t.mode == COMMAND && |t.pipeline| == |s.pipeline|
    ensures ParseTokens(before + [op, f] + more + [op, g] + rest) == AssertionError
    ensures op == ">" ==> ParseTokens(before + [op, f] + more + ["|"] + rest) == AssertionError
    ensures op == "2>" ==> ParseTokens(before + [op, f] + more + ["2>&1"] + rest) == AssertionError
  {
    hide MatchEnv, StepBegin;
    var all := before + [op, f] + more;
    assert all == before + ([op, f] + more);
    StepsConcat(START, before, [op, f] + more);
    StepsConcat(s, [op, f], more);
    assert [op, f][1..] == [f];
    var u := Step(s, op).value;
    StepsOne(u, f);
    var v := Step(u, f).value;
    SameCommand(v, more);
    assert [op, g][1..] == [g];
    StepsOne(Step(t, op).value, g);
    FailsFrom(all, t, [op, g], rest);
    StepsOne(t, "|");
    StepsOne(t, "2>&1");
    if op == ">" {
      FailsFrom(all, t, ["|"], rest);
    } else if op == "2>" {
      FailsFrom(all, t, ["2>&1"], rest);
    }
  }

  predicate AreSettings(tokens: seq<string>) {
    forall i :: 0 <= i < |tokens| ==> MatchEnv(tokens[i]).Some?
  }

  lemma {:induction false} AfterSettings(s: ParserState, settings: seq<string>)
    requires Fits(s) && s.mode == BEGIN && AreSettings(settings)
    ensures Steps(s, settings).Ok? && Steps(s, settings).value.mode == BEGIN
    ensures settings != [] || s.env != map[] ==> Steps(s, settings).value.env != map[]
    decreases settings
  {
    hide MatchEnv;
    if settings != [] {
      var m := MatchEnv(settings[0]).value;
      assert m.0 in s.env[m.0 := m.1];
      AfterSettings(Step(s, settings[0]).value, settings[1..]);
    }
  }

  /** Wherever a node begins: cd takes no settings and at most one directory, and only "&&" may follow. */
  lemma BadChdirFails(before: seq<string>, s: ParserState, settings: seq<string>, dir: string, next: string,
                      rest: seq<string>)
    requires Reaches(before, s) && Fits(s) && s.mode == BEGIN
    requires AreSettings(settings) && dir != "&&" && next != "&&"
    ensures settings != [] ==> ParseTokens(before + (settings + ["cd"]) + rest) == AssertionError
    ensures ParseTokens(before + ["cd", dir, next] + rest) == AssertionError
  {
    NotASetting();
    hide MatchEnv;
    if settings != [] {
      AfterSettings(s, settings);
      StepsConcat(s, settings, ["cd"]);
      StepsOne(Steps(s, settings).value, "cd");
      FailsFrom(before, s, settings + ["cd"], rest);
    }
    assert ["cd", dir, next][1..] == [dir, next] && [dir, next][1..] == [next];
    if s.env == map[] {
      var c := Step(s, "cd").value;
      StepsOne(Step(c, dir).value, next);
    }
    FailsFrom(before, s, ["cd", dir, next], rest);
  }

  /** A line that ends where a node has to begin is refused: after nothing, an operator, or settings. */
  lemma UnfinishedFails(before: seq<string>, s: ParserState, op: string, settings: seq<string>)
    requires Reaches(before, s) && Fits(s) && AreSettings(settings) && op in ["|", "&&", "||"]
    ensures s.mode == BEGIN ==> ParseTokens(before + settings) == AssertionError
    ensures s.mode == COMMAND ==> ParseTokens(before + ([op] + settings)) == AssertionError
    ensures s.mode == CHDIR ==> ParseTokens(before + (["&&"] + settings)) == AssertionError
  {
    hide MatchEnv;
    if s.mode == BEGIN {
      AfterSettings(s, settings);
      StepsConcat(START, before, settings);
    } else if s.mode == COMMAND {
      StepsOne(s, op);
      OperatorThen(before, s, op, settings);
    } else if s.mode == CHDIR {
      StepsOne(s, "&&");
      OperatorThen(before, s, "&&", settings);
    }
  }

  lemma OperatorThen(before: seq<string>, s: ParserState, op: string, settings: seq<string>)
    requires Reaches(before, s) && Fits(s) && AreSettings(settings)
    requires Step(s, op).Ok? ==> Step(s, op).value.mode == BEGIN
    ensures ParseTokens(before + ([op] + settings)) == AssertionError
  {
    hide MatchEnv, Step;
    StepsOne(s, op);
    StepsConcat(START, before, [op] + settings);
    StepsConcat(s, [op], settings);
    if Step(s, op).Ok? {
      AfterSettings(Step(s, op).value, settings);
    }
  }
}
