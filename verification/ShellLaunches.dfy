/**
 What Pipeline.run does with a node list, read off its events: which commands are launched, with what
 arguments, directory and streams, and where it stops.
 */
module ShellLaunches {
  import opened Basics
  import opened ShellSyntax
  import opened ShellEval

  // ---------------------------------------------------------------- looking back from a node

  function CommandsBefore(p: seq<Node>, m: nat): nat
    requires m <= |p|
  {
    if m == 0 then 0 else CommandsBefore(p, m - 1) + if p[m-1].Command? then 1 else 0
  }

  /** The directory that the cds before p[m] have led to. */
  function DirectoryAt(p: seq<Node>, m: nat, cwd: string, join: PathJoin): string
    requires m <= |p|
  {
    if m == 0 then cwd
    else
      var before := DirectoryAt(p, m - 1, cwd, join);
      if p[m-1].Chdir? && p[m-1].dir.Some? then join(before, p[m-1].dir.value) else before
  }

  /** Whether a pipe stands between the command before p[m] and p[m]; was says what holds at the start. */
  predicate PipedAt(p: seq<Node>, m: nat, was: bool)
    requires m <= |p|
  {
    if m == 0 then was
    else if p[m-1] == PipeOp then true
    else if p[m-1].Command? then false
    else PipedAt(p, m - 1, was)
  }

  lemma {:induction false} LookBack(p: seq<Node>, m: nat, cwd: string, was: bool, join: PathJoin)
    requires 2 <= m <= |p|
    ensures var q, k := p[2..], m - 2;
      && CommandsBefore(p, m) == CommandsBefore(p, 2) + CommandsBefore(q, k)
      && DirectoryAt(p, m, cwd, join) == DirectoryAt(q, k, DirectoryAt(p, 2, cwd, join), join)
      && PipedAt(p, m, was) == PipedAt(q, k, PipedAt(p, 2, was))
    decreases m
  {
    if m > 2 {
      LookBack(p, m - 1, cwd, was, join);
      assert p[m-1] == p[2..][m-3];
    }
  }

  lemma FirstTwo(p: seq<Node>, cwd: string, was: bool, join: PathJoin)
    requires |p| >= 2
    ensures CommandsBefore(p, 0) == 0 && DirectoryAt(p, 0, cwd, join) == cwd && PipedAt(p, 0, was) == was
    ensures CommandsBefore(p, 2) == (if p[0].Command? then 1 else 0) + if p[1].Command? then 1 else 0
    ensures p[0].Command? && !p[1].Chdir? ==> DirectoryAt(p, 2, cwd, join) == cwd
    ensures p[0].Chdir? && p[0].dir.Some? && !p[1].Chdir? ==>
      DirectoryAt(p, 2, cwd, join) == join(cwd, p[0].dir.value)
    ensures p[1] == PipeOp ==> PipedAt(p, 2, was)
    ensures p[0].Command? && p[1] in [And, Or] ==> !PipedAt(p, 2, was)
    ensures p[0].Chdir? && p[1] == And ==> PipedAt(p, 2, was) == was
  {
    assert CommandsBefore(p, 1) == if p[0].Command? then 1 else 0;
    assert DirectoryAt(p, 1, cwd, join) ==
      if p[0].Chdir? && p[0].dir.Some? then join(cwd, p[0].dir.value) else cwd;
  }

  // ---------------------------------------------------------------- counting events

  function LaunchCount(events: seq<Event>): nat {
    if events == [] then 0 else LaunchCount(events[..|events|-1]) + if events[|events|-1].Launch? then 1 else 0
  }

  function WaitCount(events: seq<Event>): nat {
    if events == [] then 0 else WaitCount(events[..|events|-1]) + if events[|events|-1].Wait? then 1 else 0
  }

  lemma {:induction false} CountConcat(a: seq<Event>, b: seq<Event>)
    ensures LaunchCount(a + b) == LaunchCount(a) + LaunchCount(b)
    ensures WaitCount(a + b) == WaitCount(a) + WaitCount(b)
    decreases |b|
  {
    if b == [] {
      assert a + b == a;
    } else {
      var k := |b| - 1;
      CountConcat(a, b[..k]);
      assert (a + b)[..|a|+k] == a + b[..k];
    }
  }

  lemma {:induction false} NoneCounted(events: seq<Event>)
    ensures (forall e :: e in events ==> !e.Launch?) ==> LaunchCount(events) == 0
    ensures (forall e :: e in events ==> !e.Wait?) ==> WaitCount(events) == 0
    decreases |events|
  {
    if events != [] {
      NoneCounted(events[..|events|-1]);
    }
  }

  lemma {:induction false} WaitsCounted(n: nat, k: nat)
    ensures LaunchCount(Waits(n, k)) == 0 && WaitCount(Waits(n, k)) == k
    decreases k
  {
    NoneCounted(Waits(n, k));
    if k > 0 {
      WaitsCounted(n, k - 1);
      assert Waits(n, k)[..k-1] == Waits(n, k - 1);
    }
  }

  /** The events before the launch itself. */
  function Opens(c: Cmd, piped: bool, f: nat): seq<Event>
    requires c.node.Command?
  {
    var ins := InOpens(c, piped, f);
    var outs := OutOpens(c.node.stdout, f + |ins|);
    ins + outs + OutOpens(c.node.stderr, f + |ins| + |outs|)
  }

  function TheLaunch(c: Cmd, piped: bool, n: nat, f: nat): (e: Event)
    requires c.node.Command? && (piped ==> n > 0)
    ensures e.Launch?
  {
    var ins := |InOpens(c, piped, f)|;
    var outs := |OutOpens(c.node.stdout, f + ins)|;
    Launch(c.node.argv, InStream(c, piped, n, f), OutStream(c.node.stdout, f + ins),
           OutStream(c.node.stderr, f + ins + outs), c.node.env, if c.cwd == "." then None else Some(c.cwd))
  }

  lemma CmdShape(c: Cmd, piped: bool, n: nat, f: nat)
    requires c.node.Command? && (piped ==> n > 0)
    ensures CmdEvents(c, piped, n, f) == Opens(c, piped, f) + [TheLaunch(c, piped, n, f)]
  {
  }

  lemma OpensOnly(c: Cmd, piped: bool, f: nat)
    requires c.node.Command?
    ensures forall e :: e in Opens(c, piped, f) ==> IsOpen(e)
    ensures LaunchCount(Opens(c, piped, f)) == 0 && WaitCount(Opens(c, piped, f)) == 0
  {
    hide LaunchCount, WaitCount;
    var ins := InOpens(c, piped, f);
    var outs := OutOpens(c.node.stdout, f + |ins|);
    var errs := OutOpens(c.node.stderr, f + |ins| + |outs|);
    assert forall e :: e in ins ==> IsOpen(e);
    OutOnly(c.node.stdout, f + |ins|);
    OutOnly(c.node.stderr, f + |ins| + |outs|);
    hide InOpens, OutOpens;
    NoneCounted(ins);
    NoneCounted(outs);
    NoneCounted(errs);
    CountConcat(ins, outs);
    CountConcat(ins + outs, errs);
  }

  lemma OutOnly(t: Target, id: nat)
    ensures forall e :: e in OutOpens(t, id) ==> IsOpen(e)
  {
  }

  lemma OneMore(events: seq<Event>, e: Event)
    requires e.Launch?
    ensures LaunchCount(events + [e]) == LaunchCount(events) + 1 && WaitCount(events + [e]) == WaitCount(events)
  {
    assert (events + [e])[..|events|] == events;
  }

  lemma {:induction false} CmdCounted(c: Cmd, piped: bool, n: nat, f: nat)
    requires c.node.Command? && (piped ==> n > 0)
    ensures LaunchCount(CmdEvents(c, piped, n, f)) == 1 && WaitCount(CmdEvents(c, piped, n, f)) == 0
  {
    hide *;
    CmdShape(c, piped, n, f);
    OpensOnly(c, piped, f);
    OneMore(Opens(c, piped, f), TheLaunch(c, piped, n, f));
  }

  lemma {:induction false} LaunchesStep(cmds: seq<Cmd>, n: nat, f: nat)
    requires Commands(cmds) && cmds != []
    ensures var k := |cmds| - 1;
      && Commands(cmds[..k]) && cmds[k].node.Command?
      && Launches(cmds, n, f)
         == Launches(cmds[..k], n, f) + CmdEvents(cmds[k], k > 0, n + k, f + StageOpens(cmds[..k]))
  {
    hide CmdEvents, StageOpens;
  }

  lemma {:induction false} LaunchesCounted(cmds: seq<Cmd>, n: nat, f: nat)
    requires Commands(cmds)
    ensures LaunchCount(Launches(cmds, n, f)) == |cmds| && WaitCount(Launches(cmds, n, f)) == 0
    decreases |cmds|
  {
    hide *;
    if cmds == [] {
      NoLaunches(n, f);
    } else {
      var k := |cmds| - 1;
      LaunchesStep(cmds, n, f);
      var opens := f + StageOpens(cmds[..k]);
      LaunchesCounted(cmds[..k], n, f);
      CmdCounted(cmds[k], k > 0, n + k, opens);
      CountConcat(Launches(cmds[..k], n, f), CmdEvents(cmds[k], k > 0, n + k, opens));
    }
  }

  lemma NoLaunches(n: nat, f: nat)
    ensures Commands([]) && Launches([], n, f) == [] && LaunchCount([]) == 0 && WaitCount([]) == 0
  {
  }

  lemma {:induction false} StageCounted(cmds: seq<Cmd>, n: nat, f: nat)
    requires Commands(cmds)
    ensures LaunchCount(StageEvents(cmds, n, f)) == |cmds| && WaitCount(StageEvents(cmds, n, f)) == |cmds|
    ensures var all, launches := StageEvents(cmds, n, f), Launches(cmds, n, f);
      launches <= all && forall i :: |launches| <= i < |all| ==> !all[i].Launch?
  {
    hide Launches, StageOpens;
    LaunchesCounted(cmds, n, f);
    WaitsCounted(n, |cmds|);
    NoneCounted(Closes(f, StageOpens(cmds)));
    CountConcat(Launches(cmds, n, f), Waits(n, |cmds|));
    CountConcat(Launches(cmds, n, f) + Waits(n, |cmds|), Closes(f, StageOpens(cmds)));
  }

  // ---------------------------------------------------------------- one launch

  /** The stream that a redirection leads to, opened earlier if it is a file. */
  ghost predicate TargetIs(t: Target, s: Stream, earlier: seq<Event>) {
    match t
    case Inherit => s == Inherited
    case Pipe => s == NewPipe
    case Stdout => s == SameAsStdout
    case File(name) =>
      if name == "NUL:" || name == "/dev/null" then s == DevNull
      else s.Handle? && OpenWrite(s.id, name) in earlier
  }

  predicate IsOpen(e: Event) {
    e.OpenRead? || e.OpenWrite?
  }

  predicate IsFile(t: Target) {
    t.File? && t.name != "NUL:" && t.name != "/dev/null"
  }

  /** How many files n needs; a command after a pipe does not read its own. */
  function FilesFor(n: Node, piped: bool): nat
    requires n.Command?
  {
    (if n.stdin.File? && !piped then 1 else 0) + (if IsFile(n.stdout) then 1 else 0) + if IsFile(n.stderr) then 1 else 0
  }

  /** The k events before events[i] are opens, and no more. */
  ghost predicate JustOpened(events: seq<Event>, i: nat, k: nat)
    requires i < |events|
  {
    && k <= i && (forall j :: i - k <= j < i ==> IsOpen(events[j]))
    && (k < i ==> !IsOpen(events[i-k-1]))
  }

  /**
   events[i] launches n as process k in directory dir, and just before it the files of n are opened.
   Unless it continues a pipe, everything launched before has been waited for.
   */
  ghost predicate LaunchIs(events: seq<Event>, i: nat, n: Node, dir: string, piped: bool, k: nat)
    requires i < |events|
  {
    var e, earlier := events[i], events[..i];
    && n.Command? && e.Launch? && e.argv == n.argv && e.env == n.env
    && e.cwd == (if dir == "." then None else Some(dir))
    && TargetIs(n.stdout, e.stdout, earlier) && TargetIs(n.stderr, e.stderr, earlier)
    && (if piped then k > 0 && e.stdin == PipeFrom(k - 1)
        else if n.stdin.File? then e.stdin.Handle? && OpenRead(e.stdin.id, n.stdin.name) in earlier
        else e.stdin == Inherited)
    && (!piped ==> WaitCount(earlier) == LaunchCount(earlier))
    && JustOpened(events, i, FilesFor(n, piped))
  }

  lemma TargetLater(t: Target, s: Stream, earlier: seq<Event>, more: seq<Event>)
    requires TargetIs(t, s, earlier) && forall e :: e in earlier ==> e in more
    ensures TargetIs(t, s, more)
  {
  }

  ghost predicate NoOpenAtEnd(events: seq<Event>) {
    events != [] ==> !IsOpen(events[|events|-1])
  }

  lemma OpenedLater(before: seq<Event>, events: seq<Event>, i: nat, k: nat)
    requires i < |events| && JustOpened(events, i, k) && NoOpenAtEnd(before)
    ensures JustOpened(before + events, |before| + i, k)
  {
    hide IsOpen;
    var all, b := before + events, |before|;
    assert forall j :: b <= j < b + i ==> all[j] == events[j-b];
    assert before != [] ==> all[b-1] == before[b-1];
  }

  lemma OpenedBefore(before: seq<Event>, opens: seq<Event>, e: Event)
    requires NoOpenAtEnd(before) && forall o :: o in opens ==> IsOpen(o)
    ensures JustOpened(before + opens + [e], |before + opens|, |opens|)
  {
    hide IsOpen;
    var all, b := before + opens + [e], |before|;
    assert forall j :: b <= j < b + |opens| ==> all[j] == opens[j-b] && opens[j-b] in opens;
    assert before != [] ==> all[b-1] == before[b-1];
  }

  lemma OpensFor(c: Cmd, piped: bool, f: nat)
    requires c.node.Command?
    ensures |Opens(c, piped, f)| == FilesFor(c.node, piped)
  {
  }

  /** The same launch after the events of earlier stages. */
  lemma {:induction false} Embed(before: seq<Event>, events: seq<Event>, i: nat, n: Node, dir: string, piped: bool,
                                 k: nat)
    requires i < |events| && LaunchIs(events, i, n, dir, piped, k) && WaitCount(before) == LaunchCount(before)
    requires NoOpenAtEnd(before)
    ensures LaunchIs(before + events, |before| + i, n, dir, piped, k)
  {
    hide TargetIs, WaitCount, LaunchCount, JustOpened, FilesFor;
    OpenedLater(before, events, i, FilesFor(n, piped));
    var earlier, more := events[..i], (before + events)[..|before|+i];
    assert more == before + earlier;
    CountConcat(before, earlier);
    TargetLater(n.stdout, events[i].stdout, earlier, more);
    TargetLater(n.stderr, events[i].stderr, earlier, more);
  }

  lemma OutIs(t: Target, id: nat, before: seq<Event>)
    ensures TargetIs(t, OutStream(t, id), before + OutOpens(t, id))
  {
    if t.File? && !IsDevNull(t.name) {
      assert OutOpens(t, id)[0] in before + OutOpens(t, id);
    }
  }

  lemma InIs(c: Cmd, piped: bool, n: nat, id: nat, earlier: seq<Event>)
    requires c.node.Command? && (piped ==> n > 0) && forall e :: e in InOpens(c, piped, id) ==> e in earlier
    ensures var s := InStream(c, piped, n, id);
      if piped then n > 0 && s == PipeFrom(n - 1)
      else if c.node.stdin.File? then s.Handle? && OpenRead(s.id, c.node.stdin.name) in earlier
      else s == Inherited
  {
    if !piped && c.node.stdin.File? {
      assert InOpens(c, piped, id)[0] in earlier;
    }
  }

  lemma {:induction false} OpensServe(c: Cmd, piped: bool, n: nat, f: nat, before: seq<Event>)
    requires c.node.Command? && (piped ==> n > 0)
    ensures var ins := |InOpens(c, piped, f)|; var outs := |OutOpens(c.node.stdout, f + ins)|;
      var earlier := before + Opens(c, piped, f);
      && TargetIs(c.node.stdout, OutStream(c.node.stdout, f + ins), earlier)
      && TargetIs(c.node.stderr, OutStream(c.node.stderr, f + ins + outs), earlier)
      && forall e :: e in InOpens(c, piped, f) ==> e in earlier
  {
    hide TargetIs, OutStream, OutOpens, InOpens;
    var ins := InOpens(c, piped, f);
    var outs := OutOpens(c.node.stdout, f + |ins|);
    var errs := OutOpens(c.node.stderr, f + |ins| + |outs|);
    var earlier := before + Opens(c, piped, f);
    assert earlier == before + ins + outs + errs;
    OutIs(c.node.stdout, f + |ins|, before + ins);
    TargetLater(c.node.stdout, OutStream(c.node.stdout, f + |ins|), before + ins + outs, earlier);
    OutIs(c.node.stderr, f + |ins| + |outs|, before + ins + outs);
  }

  lemma Associate<T>(a: seq<T>, b: seq<T>, c: seq<T>)
    ensures a + b + c == a + (b + c)
  {
  }

  lemma LastOf<T>(a: seq<T>, b: seq<T>, x: T)
    ensures forall i :: |a| <= i < |a + (b + [x])| - 1 ==> (a + (b + [x]))[i] == b[i-|a|]
    ensures (a + [x])[..|a + [x]|-1] == a && (a + [x])[|a|] == x
  {
  }

  lemma {:induction false} TheLaunchIs(before: seq<Event>, c: Cmd, piped: bool, n: nat, f: nat)
    requires c.node.Command? && (piped ==> n > 0) && (!piped ==> WaitCount(before) == LaunchCount(before))
    requires NoOpenAtEnd(before)
    ensures var all := before + Opens(c, piped, f) + [TheLaunch(c, piped, n, f)];
      LaunchIs(all, |all| - 1, c.node, c.cwd, piped, n)
  {
    hide TargetIs, OutStream, OutOpens, InOpens, InStream, WaitCount, LaunchCount, Opens, JustOpened, FilesFor,
      NoOpenAtEnd, IsOpen;
    OpensFor(c, piped, f);
    OpensOnly(c, piped, f);
    OpenedBefore(before, Opens(c, piped, f), TheLaunch(c, piped, n, f));
    var earlier := before + Opens(c, piped, f);
    var all := earlier + [TheLaunch(c, piped, n, f)];
    LastOf(earlier, [], TheLaunch(c, piped, n, f));
    OpensOnly(c, piped, f);
    CountConcat(before, Opens(c, piped, f));
    OpensServe(c, piped, n, f, before);
    InIs(c, piped, n, f, earlier);
  }

  lemma AppendCmd(before: seq<Event>, c: Cmd, piped: bool, n: nat, f: nat)
    requires c.node.Command? && (piped ==> n > 0)
    ensures before + CmdEvents(c, piped, n, f) == before + Opens(c, piped, f) + [TheLaunch(c, piped, n, f)]
  {
    hide *;
    CmdShape(c, piped, n, f);
    Associate(before, Opens(c, piped, f), [TheLaunch(c, piped, n, f)]);
  }

  /** A command after whatever came before. */
  lemma {:induction false} CmdIs(before: seq<Event>, c: Cmd, piped: bool, n: nat, f: nat, all: seq<Event>, i: nat)
    requires c.node.Command? && (piped ==> n > 0) && (!piped ==> WaitCount(before) == LaunchCount(before))
    requires NoOpenAtEnd(before)
    requires all == before + CmdEvents(c, piped, n, f) && |before| <= i < |all| && all[i].Launch?
    ensures i == |all| - 1 && LaunchIs(all, i, c.node, c.cwd, piped, n)
    ensures LaunchCount(all[..i]) == LaunchCount(before)
  {
    hide *;
    AppendCmd(before, c, piped, n, f);
    TheLaunchIs(before, c, piped, n, f);
    LastOf(before + Opens(c, piped, f), [], TheLaunch(c, piped, n, f));
    CountConcat(before, Opens(c, piped, f));
    OpensOnly(c, piped, f);
    NotEarlier(before, Opens(c, piped, f), TheLaunch(c, piped, n, f), i);
  }

  lemma NotEarlier(before: seq<Event>, opens: seq<Event>, e: Event, i: nat)
    requires |before| <= i < |before + opens + [e]|
    requires forall e :: e in opens ==> IsOpen(e)
    ensures (before + opens + [e])[i].Launch? ==> i == |before + opens + [e]| - 1
  {
    if i < |before + opens + [e]| - 1 {
      assert (before + opens + [e])[i] == opens[i-|before|];
      assert opens[i-|before|] in opens;
    }
  }

  // ---------------------------------------------------------------- the evaluator on a node list

  /** The evaluation of p when the commands of cur have begun a stage. */
  function Result(p: seq<Node>, cwd: string, cur: seq<Cmd>, n: nat, f: nat, join: PathJoin, code: ExitCodes): EvalResult
    requires WellFormed(p) && Commands(cur)
  {
    StructureIsProper(p, cwd, cur, join);
    Eval(Structure(p, cwd, cur, join), n, f, code)
  }

  lemma StageMore(cur: seq<Cmd>, c: Cmd, n: nat, f: nat)
    requires Commands(cur) && c.node.Command?
    ensures Commands(cur + [c])
    ensures Launches(cur + [c], n, f)
         == Launches(cur, n, f) + CmdEvents(c, cur != [], n + |cur|, f + StageOpens(cur))
  {
    hide CmdEvents, StageOpens;
    var stage := cur + [c];
    assert stage[..|stage|-1] == cur;
  }

  lemma ResultOfChdir(p: seq<Node>, cwd: string, cur: seq<Cmd>, n: nat, f: nat, join: PathJoin, code: ExitCodes)
    requires WellFormed(p) && Commands(cur) && p[0].Chdir?
    ensures |p| > 1 ==> |p| > 2 && p[1] == And && WellFormed(p[2..])
    ensures Result(p, cwd, cur, n, f, join, code) ==
      if |p| == 1 then EvalResult(Launches(cur, n, f), IndexError)
      else if p[0].dir == None then EvalResult(Launches(cur, n, f), AttributeError)
      else Result(p[2..], join(cwd, p[0].dir.value), cur, n, f, join, code)
  {
    hide Launches, StageEvents, StageOpens;
  }

  lemma StructureOfCommand(p: seq<Node>, cwd: string, cur: seq<Cmd>, join: PathJoin)
    requires WellFormed(p) && Commands(cur) && p[0].Command?
    ensures Commands(cur + [Cmd(p[0], cwd)])
    ensures |p| > 1 ==> |p| > 2 && p[1] in [PipeOp, And, Or] && WellFormed(p[2..])
    ensures var stage := cur + [Cmd(p[0], cwd)];
      Structure(p, cwd, cur, join) ==
        if |p| == 1 then AndOr([stage], [], None)
        else if p[1] == PipeOp then Structure(p[2..], cwd, stage, join)
        else
          var rest := Structure(p[2..], cwd, [], join);
          AndOr([stage] + rest.stages, [p[1]] + rest.ops, rest.broken)
  {
  }

  lemma {:induction false} ResultOfCommand(p: seq<Node>, cwd: string, cur: seq<Cmd>, n: nat, f: nat, join: PathJoin,
                                           code: ExitCodes)
    requires WellFormed(p) && Commands(cur) && p[0].Command?
    ensures Commands(cur + [Cmd(p[0], cwd)])
    ensures |p| > 1 ==> |p| > 2 && p[1] in [PipeOp, And, Or] && WellFormed(p[2..])
    ensures var stage := cur + [Cmd(p[0], cwd)];
      var k, status := n + |stage|, code(n + |stage| - 1);
      Result(p, cwd, cur, n, f, join, code) ==
        if |p| > 1 && p[1] == PipeOp then Result(p[2..], cwd, stage, n, f, join, code)
        else if |p| > 1 && (if p[1] == And then status == 0 else status != 0) then
          var rest := Result(p[2..], cwd, [], k, f + StageOpens(stage), join, code);
          EvalResult(StageEvents(stage, n, f) + rest.events, rest.outcome)
        else EvalResult(StageEvents(stage, n, f), Returned(status))
  {
    hide *;
    NodeFirst(p);
    var stage := cur + [Cmd(p[0], cwd)];
    StructureOfCommand(p, cwd, cur, join);
    ResultIs(p, cwd, cur, n, f, join, code);
    NoLaunches(n, f);
    if |p| == 1 {
      LastStageIs(stage, n, f, code);
    } else if p[1] == PipeOp {
      ResultIs(p[2..], cwd, stage, n, f, join, code);
    } else {
      ResultIs(p[2..], cwd, [], n + |stage|, f + StageOpens(stage), join, code);
      OperatorIs(stage, p[1], Structure(p[2..], cwd, [], join), n, f, code);
    }
  }

  lemma ResultIs(p: seq<Node>, cwd: string, cur: seq<Cmd>, n: nat, f: nat, join: PathJoin, code: ExitCodes)
    requires WellFormed(p) && Commands(cur)
    ensures Proper(Structure(p, cwd, cur, join))
    ensures Result(p, cwd, cur, n, f, join, code) == Eval(Structure(p, cwd, cur, join), n, f, code)
  {
    hide Structure, Eval;
    StructureIsProper(p, cwd, cur, join);
  }

  lemma LastStageIs(stage: seq<Cmd>, n: nat, f: nat, code: ExitCodes)
    requires Proper(AndOr([stage], [], None))
    ensures Commands(stage) && stage != []
    ensures Eval(AndOr([stage], [], None), n, f, code)
         == EvalResult(StageEvents(stage, n, f), Returned(code(n + |stage| - 1)))
  {
    hide StageEvents, Commands;
    EvalLast(AndOr([stage], [], None), n, f, code);
  }

  lemma {:induction false} OperatorIs(stage: seq<Cmd>, op: Node, rest: AndOr, n: nat, f: nat, code: ExitCodes)
    requires Proper(AndOr([stage] + rest.stages, [op] + rest.ops, rest.broken)) && Proper(rest)
    ensures Commands(stage) && stage != [] && op in [And, Or]
    ensures var status := code(n + |stage| - 1);
      Eval(AndOr([stage] + rest.stages, [op] + rest.ops, rest.broken), n, f, code) ==
        if (if op == And then status == 0 else status != 0) then
          var later := Eval(rest, n + |stage|, f + StageOpens(stage), code);
          EvalResult(StageEvents(stage, n, f) + later.events, later.outcome)
        else EvalResult(StageEvents(stage, n, f), Returned(status))
  {
    var a := AndOr([stage] + rest.stages, [op] + rest.ops, rest.broken);
    hide *;
    TailIs(stage, op, rest);
    FirstOp(a);
    TailIsProper(a);
    ProceedsMeans(op, code(n + |stage| - 1));
    EvalStep(a, n, f, code);
  }

  lemma TailIs(stage: seq<Cmd>, op: Node, rest: AndOr)
    ensures var a := AndOr([stage] + rest.stages, [op] + rest.ops, rest.broken);
      a.stages != [] && a.ops != [] && a.stages[0] == stage && a.ops[0] == op && Tail(a) == rest
  {
  }

  lemma ProceedsMeans(op: Node, status: int)
    ensures op == And ==> (Proceeds(op, status) <==> status == 0)
    ensures op == Or ==> (Proceeds(op, status) <==> status != 0)
  {
  }

  lemma FirstOp(a: AndOr)
    requires Proper(a) && a.ops != []
    ensures a.stages != [] && a.ops[0] in [And, Or]
  {
  }

  lemma NodeFirst(p: seq<Node>)
    requires WellFormed(p)
    ensures p != [] && (p[0].Chdir? || p[0].Command?)
  {
  }

  lemma {:induction false} ResultStarts(p: seq<Node>, cwd: string, cur: seq<Cmd>, n: nat, f: nat, join: PathJoin,
                                        code: ExitCodes)
    requires WellFormed(p) && Commands(cur)
    ensures Launches(cur, n, f) <= Result(p, cwd, cur, n, f, join, code).events
    decreases |p|
  {
    hide *;
    NodeFirst(p);
    if p[0].Chdir? {
      ResultOfChdir(p, cwd, cur, n, f, join, code);
      if |p| > 1 && p[0].dir.Some? {
        ResultStarts(p[2..], join(cwd, p[0].dir.value), cur, n, f, join, code);
      }
    } else {
      var c := Cmd(p[0], cwd);
      ResultOfCommand(p, cwd, cur, n, f, join, code);
      StageMore(cur, c, n, f);
      if |p| > 1 && p[1] == PipeOp {
        ResultStarts(p[2..], cwd, cur + [c], n, f, join, code);
      } else {
        StageCounted(cur + [c], n, f);
      }
    }
  }

  // ---------------------------------------------------------------- which command is launched

  /** events[i] launches p[m]; process numbers start at n0, and at k0 for the first command of p. */
  ghost predicate Launches1(events: seq<Event>, i: nat, p: seq<Node>, m: nat, cwd: string, was: bool, k0: nat, n0: nat,
                            join: PathJoin)
    requires i < |events| && m < |p|
  {
    && n0 + LaunchCount(events[..i]) == k0 + CommandsBefore(p, m)
    && LaunchIs(events, i, p[m], DirectoryAt(p, m, cwd, join), PipedAt(p, m, was), k0 + CommandsBefore(p, m))
  }

  ghost predicate LaunchesSome(events: seq<Event>, i: nat, p: seq<Node>, cwd: string, was: bool, k0: nat, n0: nat,
                               join: PathJoin)
    requires i < |events|
  {
    exists m :: 0 <= m < |p| && Launches1(events, i, p, m, cwd, was, k0, n0, join)
  }

  lemma {:induction false} LaunchesLater(events: seq<Event>, i: nat, p: seq<Node>, cwd: string, was: bool, k0: nat,
                                         n0: nat, join: PathJoin)
    requires i < |events| && |p| > 2
    requires LaunchesSome(events, i, p[2..], DirectoryAt(p, 2, cwd, join), PipedAt(p, 2, was),
                          k0 + CommandsBefore(p, 2), n0, join)
    ensures LaunchesSome(events, i, p, cwd, was, k0, n0, join)
  {
    hide LaunchIs, LaunchCount, DirectoryAt, PipedAt, CommandsBefore;
    var m :| 0 <= m < |p[2..]| && Launches1(events, i, p[2..], m, DirectoryAt(p, 2, cwd, join), PipedAt(p, 2, was),
                                           k0 + CommandsBefore(p, 2), n0, join);
    LookBack(p, m + 2, cwd, was, join);
    assert p[m+2] == p[2..][m];
    assert Launches1(events, i, p, m + 2, cwd, was, k0, n0, join);
  }

  lemma {:induction false} EmbedSome(before: seq<Event>, events: seq<Event>, i: nat, p: seq<Node>, cwd: string,
                                     was: bool, k0: nat, n0: nat, join: PathJoin)
    requires i < |events| && WaitCount(before) == LaunchCount(before) && NoOpenAtEnd(before)
    requires LaunchesSome(events, i, p, cwd, was, k0, n0 + LaunchCount(before), join)
    ensures LaunchesSome(before + events, |before| + i, p, cwd, was, k0, n0, join)
  {
    hide LaunchIs, LaunchCount, WaitCount, DirectoryAt, PipedAt, CommandsBefore;
    var m :| 0 <= m < |p| && Launches1(events, i, p, m, cwd, was, k0, n0 + LaunchCount(before), join);
    Embed(before, events, i, p[m], DirectoryAt(p, m, cwd, join), PipedAt(p, m, was), k0 + CommandsBefore(p, m));
    SliceOf(before, events, i);
    CountConcat(before, events[..i]);
    assert Launches1(before + events, |before| + i, p, m, cwd, was, k0, n0, join);
  }

  lemma SliceOf<T>(a: seq<T>, b: seq<T>, i: nat)
    requires i <= |b|
    ensures (a + b)[..|a|+i] == a + b[..i]
  {
  }

  /** The first command of p, where its stage stands so far. */
  lemma {:induction false} FirstLaunch(p: seq<Node>, cwd: string, cur: seq<Cmd>, n: nat, f: nat, join: PathJoin,
                                       events: seq<Event>, i: nat)
    requires p != [] && p[0].Command? && Commands(cur) && Commands(cur + [Cmd(p[0], cwd)])
    requires Launches(cur + [Cmd(p[0], cwd)], n, f) <= events
    requires |Launches(cur, n, f)| <= i < |Launches(cur + [Cmd(p[0], cwd)], n, f)| && events[i].Launch?
    ensures LaunchesSome(events, i, p, cwd, cur != [], n + |cur|, n, join)
  {
    hide *;
    var c := Cmd(p[0], cwd);
    var before, all := Launches(cur, n, f), Launches(cur + [c], n, f);
    StageMore(cur, c, n, f);
    LaunchesCounted(cur, n, f);
    NoLaunches(n, f);
    EndsInLaunch(cur, n, f);
    CmdIs(before, c, cur != [], n + |cur|, f + StageOpens(cur), all, i);
    SamePrefix(all, events, i, c.node, c.cwd, cur != [], n + |cur|);
    AtStart(p, cwd, cur != [], join);
    assert Launches1(events, i, p, 0, cwd, cur != [], n + |cur|, n, join) by {
      FromStart(events, i, p, cwd, cur != [], n + |cur|, n, join);
    }
    SomeAt(events, i, p, 0, cwd, cur != [], n + |cur|, n, join);
  }

  lemma EndsInLaunch(cmds: seq<Cmd>, n: nat, f: nat)
    requires Commands(cmds)
    ensures NoOpenAtEnd(Launches(cmds, n, f))
  {
    hide StageOpens;
    if cmds != [] {
      var k := |cmds| - 1;
      LaunchesStep(cmds, n, f);
      CmdShape(cmds[k], k > 0, n + k, f + StageOpens(cmds[..k]));
    }
  }

  lemma EndsInClose(cmds: seq<Cmd>, n: nat, f: nat)
    requires Commands(cmds) && cmds != []
    ensures NoOpenAtEnd(StageEvents(cmds, n, f))
  {
    hide StageOpens, Launches;
    var closes := Closes(f, StageOpens(cmds));
    if closes == [] {
      assert StageEvents(cmds, n, f)[|StageEvents(cmds, n, f)|-1] == Waits(n, |cmds|)[|cmds|-1];
    } else {
      assert StageEvents(cmds, n, f)[|StageEvents(cmds, n, f)|-1] == closes[|closes|-1];
    }
  }

  lemma SomeAt(events: seq<Event>, i: nat, p: seq<Node>, m: nat, cwd: string, was: bool, k0: nat, n0: nat,
               join: PathJoin)
    requires i < |events| && m < |p| && Launches1(events, i, p, m, cwd, was, k0, n0, join)
    ensures LaunchesSome(events, i, p, cwd, was, k0, n0, join)
  {
    hide Launches1;
  }

  lemma AtStart(p: seq<Node>, cwd: string, was: bool, join: PathJoin)
    ensures CommandsBefore(p, 0) == 0 && DirectoryAt(p, 0, cwd, join) == cwd && PipedAt(p, 0, was) == was
  {
  }

  lemma FromStart(events: seq<Event>, i: nat, p: seq<Node>, cwd: string, was: bool, k0: nat, n0: nat, join: PathJoin)
    requires i < |events| && p != [] && n0 + LaunchCount(events[..i]) == k0 && LaunchIs(events, i, p[0], cwd, was, k0)
    ensures Launches1(events, i, p, 0, cwd, was, k0, n0, join)
  {
    hide LaunchIs, LaunchCount;
  }

  lemma SamePrefix(all: seq<Event>, events: seq<Event>, i: nat, n: Node, dir: string, piped: bool, k: nat)
    requires all <= events && i < |all| && LaunchIs(all, i, n, dir, piped, k)
    ensures LaunchIs(events, i, n, dir, piped, k) && events[..i] == all[..i]
  {
    hide TargetIs, LaunchCount, WaitCount, IsOpen, FilesFor;
    assert events[..i] == all[..i];
    assert forall j :: 0 <= j < i ==> events[j] == all[j];
  }

  lemma {:induction false} LaunchesFrom(p: seq<Node>, cwd: string, cur: seq<Cmd>, n: nat, f: nat, join: PathJoin,
                                        code: ExitCodes, i: nat)
    requires WellFormed(p) && Commands(cur)
    requires var events := Result(p, cwd, cur, n, f, join, code).events;
      |Launches(cur, n, f)| <= i < |events| && events[i].Launch?
    ensures LaunchesSome(Result(p, cwd, cur, n, f, join, code).events, i, p, cwd, cur != [], n + |cur|, n, join)
    decreases |p|
  {
    hide *;
    var events := Result(p, cwd, cur, n, f, join, code).events;
    NodeFirst(p);
    if p[0].Chdir? {
      ResultOfChdir(p, cwd, cur, n, f, join, code);
      FirstTwo(p, cwd, cur != [], join);
      LaunchesFrom(p[2..], join(cwd, p[0].dir.value), cur, n, f, join, code, i);
      LaunchesLater(events, i, p, cwd, cur != [], n + |cur|, n, join);
    } else {
      var c := Cmd(p[0], cwd);
      var stage := cur + [c];
      ResultOfCommand(p, cwd, cur, n, f, join, code);
      StageMore(cur, c, n, f);
      StageCounted(stage, n, f);
      if |p| > 1 && p[1] == PipeOp {
        ResultStarts(p[2..], cwd, stage, n, f, join, code);
      }
      if i < |Launches(stage, n, f)| {
        FirstLaunch(p, cwd, cur, n, f, join, events, i);
      } else {
        FirstTwo(p, cwd, cur != [], join);
        if p[1] == PipeOp {
          LaunchesFrom(p[2..], cwd, stage, n, f, join, code, i);
        } else {
          var all, k := StageEvents(stage, n, f), n + |stage|;
          NoLaunches(k, f + StageOpens(stage));
          EndsInClose(stage, n, f);
          LaunchesFrom(p[2..], cwd, [], k, f + StageOpens(stage), join, code, i - |all|);
          EmbedSome(all, Result(p[2..], cwd, [], k, f + StageOpens(stage), join, code).events, i - |all|, p[2..], cwd,
                    false, k, n, join);
        }
        LaunchesLater(events, i, p, cwd, cur != [], n + |cur|, n, join);
      }
    }
  }

  /** Every launch is one of a command of the list, in its place. */
  lemma LaunchesMean(p: seq<Node>, join: PathJoin, code: ExitCodes, i: nat)
    requires WellFormed(p) && Proper(Structure(p, ".", [], join))
    requires var events := Eval(Structure(p, ".", [], join), 0, 0, code).events; i < |events| && events[i].Launch?
    ensures var events := Eval(Structure(p, ".", [], join), 0, 0, code).events;
      exists m :: (0 <= m < |p| && CommandsBefore(p, m) == LaunchCount(events[..i])
        && LaunchIs(events, i, p[m], DirectoryAt(p, m, ".", join), PipedAt(p, m, false), LaunchCount(events[..i])))
  {
    hide *;
    NoLaunches(0, 0);
    ResultIs(p, ".", [], 0, 0, join, code);
    LaunchesFrom(p, ".", [], 0, 0, join, code, i);
    FromZero(Eval(Structure(p, ".", [], join), 0, 0, code).events, i, p, join);
  }

  lemma FromZero(events: seq<Event>, i: nat, p: seq<Node>, join: PathJoin)
    requires i < |events| && LaunchesSome(events, i, p, ".", false, 0, 0, join)
    ensures exists m :: (0 <= m < |p| && CommandsBefore(p, m) == LaunchCount(events[..i])
      && LaunchIs(events, i, p[m], DirectoryAt(p, m, ".", join), PipedAt(p, m, false), LaunchCount(events[..i])))
  {
    hide LaunchIs, LaunchCount, DirectoryAt, PipedAt, CommandsBefore;
  }

  // ---------------------------------------------------------------- where run stops

  /** The operator after p[m] lets the next node run. */
  predicate GoesOn(p: seq<Node>, m: nat, status: int)
    requires m < |p|
  {
    m + 1 < |p| && (p[m+1] == And ==> status == 0) && (p[m+1] == Or ==> status != 0)
  }

  /** There is no operator after p[m], or it does not let the next node run. */
  predicate StopsAt(p: seq<Node>, m: nat, status: int)
    requires m < |p|
  {
    m + 1 == |p| || (p[m+1] == And && status != 0) || (p[m+1] == Or && status == 0)
  }

  /** The first k commands of p, which are processes k0 and up, all let the next node run. */
  ghost predicate AllGoOn(p: seq<Node>, k: int, k0: nat, code: ExitCodes) {
    forall m :: 0 <= m < |p| && p[m].Command? && CommandsBefore(p, m) < k ==>
      GoesOn(p, m, code(k0 + CommandsBefore(p, m)))
  }

  /** The k-th command of p is the last to be launched, and gives the status. */
  ghost predicate ReturnsAt(p: seq<Node>, k: int, k0: nat, code: ExitCodes, status: int) {
    exists m :: 0 <= m < |p| && p[m].Command? && CommandsBefore(p, m) == k && status == code(k0 + k)
      && StopsAt(p, m, status)
  }

  ghost predicate BareChdirAfter(p: seq<Node>, k: int) {
    exists m :: 0 <= m < |p| - 1 && p[m] == Chdir(None) && CommandsBefore(p, m) == k
  }

  /** k commands of p have been launched when run ends in outcome. */
  ghost predicate EndsAs(p: seq<Node>, k: nat, k0: nat, code: ExitCodes, outcome: Outcome) {
    match outcome
    case Returned(status) => k > 0 && AllGoOn(p, k - 1, k0, code) && ReturnsAt(p, k - 1, k0, code, status)
    case IndexError => AllGoOn(p, k, k0, code) && p != [] && p[|p|-1].Chdir? && CommandsBefore(p, |p| - 1) == k
    case AttributeError => AllGoOn(p, k, k0, code) && BareChdirAfter(p, k)
    case _ => false
  }

  /** p[0] and p[1] stand before q. */
  ghost predicate Counted(p: seq<Node>, one: nat) {
    && |p| > 2 && !p[1].Command? && one == (if p[0].Command? then 1 else 0) && CommandsBefore(p, 0) == 0
    && forall m :: 2 <= m <= |p| ==> CommandsBefore(p, m) == one + CommandsBefore(p[2..], m - 2)
  }

  lemma {:induction false} CountedAhead(p: seq<Node>, one: nat)
    requires |p| > 2 && !p[1].Command? && one == if p[0].Command? then 1 else 0
    ensures Counted(p, one)
  {
    var join: PathJoin := (a, b) => a;
    AtStart(p, "", false, join);
    forall m | 2 <= m <= |p|
      ensures CommandsBefore(p, m) == one + CommandsBefore(p[2..], m - 2)
    {
      LookBack(p, m, "", false, join);
      FirstTwo(p, "", false, join);
    }
  }

  lemma {:induction false} ReturnsLater(p: seq<Node>, k: int, one: nat, k0: nat, code: ExitCodes, status: int)
    requires Counted(p, one) && k >= 0 && ReturnsAt(p[2..], k, k0 + one, code, status)
    ensures ReturnsAt(p, k + one, k0, code, status)
  {
    hide CommandsBefore;
    var q := p[2..];
    var m :| 0 <= m < |q| && q[m].Command? && CommandsBefore(q, m) == k && status == code(k0 + one + k)
      && StopsAt(q, m, status);
    assert p[m+2] == q[m] && CommandsBefore(p, m + 2) == k + one;
    assert m + 1 < |q| ==> p[m+3] == q[m+1];
    assert StopsAt(p, m + 2, status);
  }

  lemma {:induction false} BareLater(p: seq<Node>, k: int, one: nat)
    requires Counted(p, one) && BareChdirAfter(p[2..], k)
    ensures BareChdirAfter(p, k + one)
  {
    hide CommandsBefore;
    var q := p[2..];
    var m :| 0 <= m < |q| - 1 && q[m] == Chdir(None) && CommandsBefore(q, m) == k;
    assert p[m+2] == q[m] && CommandsBefore(p, m + 2) == k + one;
  }

  /** The same for a list with one more node and operator in front. */
  lemma {:induction false} EndsLater(p: seq<Node>, k: nat, k0: nat, code: ExitCodes, outcome: Outcome)
    requires |p| > 2 && !p[1].Command? && (p[0].Command? ==> GoesOn(p, 0, code(k0)))
    requires EndsAs(p[2..], k, k0 + if p[0].Command? then 1 else 0, code, outcome)
    ensures EndsAs(p, k + if p[0].Command? then 1 else 0, k0, code, outcome)
  {
    hide AllGoOn, CommandsBefore, ReturnsAt, BareChdirAfter, GoesOn, Counted;
    var one := if p[0].Command? then 1 else 0;
    CountedAhead(p, one);
    AllLater(p, if outcome.Returned? then k - 1 else k, one, k0, code);
    match outcome
    case Returned(status) => ReturnsLater(p, k - 1, one, k0, code, status);
    case IndexError => LastLater(p, one);
    case AttributeError => BareLater(p, k, one);
    case _ =>
  }

  lemma LastLater(p: seq<Node>, one: nat)
    requires Counted(p, one)
    ensures p[|p|-1] == p[2..][|p|-3] && CommandsBefore(p, |p| - 1) == one + CommandsBefore(p[2..], |p| - 3)
  {
    hide CommandsBefore;
  }

  lemma {:induction false} AllLater(p: seq<Node>, k: int, one: nat, k0: nat, code: ExitCodes)
    requires Counted(p, one) && (p[0].Command? ==> GoesOn(p, 0, code(k0)))
    requires AllGoOn(p[2..], k, k0 + one, code)
    ensures AllGoOn(p, k + one, k0, code)
  {
    hide CommandsBefore;
    var q := p[2..];
    forall m | 0 <= m < |p| && p[m].Command? && CommandsBefore(p, m) < k + one
      ensures GoesOn(p, m, code(k0 + CommandsBefore(p, m)))
    {
      if m >= 2 {
        assert p[m] == q[m-2] && GoesOn(q, m - 2, code(k0 + one + CommandsBefore(q, m - 2)));
        assert m + 1 < |p| && p[m+1] == q[m-1];
      }
    }
  }

  lemma {:induction false} EndsFrom(p: seq<Node>, cwd: string, cur: seq<Cmd>, n: nat, f: nat, join: PathJoin,
                                    code: ExitCodes)
    requires WellFormed(p) && Commands(cur)
    ensures var r := Result(p, cwd, cur, n, f, join, code);
      LaunchCount(r.events) >= |cur| && EndsAs(p, LaunchCount(r.events) - |cur|, n + |cur|, code, r.outcome)
    decreases |p|
  {
    hide *;
    NodeFirst(p);
    LaunchesCounted(cur, n, f);
    if p[0].Chdir? {
      ResultOfChdir(p, cwd, cur, n, f, join, code);
      if |p| == 1 || p[0].dir == None {
        EndsAtChdir(p, n + |cur|, code);
      } else {
        EndsFrom(p[2..], join(cwd, p[0].dir.value), cur, n, f, join, code);
        var r := Result(p, cwd, cur, n, f, join, code);
        EndsLater(p, LaunchCount(r.events) - |cur|, n + |cur|, code, r.outcome);
      }
    } else {
      var c := Cmd(p[0], cwd);
      var stage := cur + [c];
      ResultOfCommand(p, cwd, cur, n, f, join, code);
      StageCounted(stage, n, f);
      var status := code(n + |cur|);
      if |p| > 1 && p[1] == PipeOp {
        EndsFrom(p[2..], cwd, stage, n, f, join, code);
        var r := Result(p, cwd, cur, n, f, join, code);
        PipeGoesOn(p, status);
        EndsLater(p, LaunchCount(r.events) - |stage|, n + |cur|, code, r.outcome);
      } else if |p| > 1 && (if p[1] == And then status == 0 else status != 0) {
        var k, g := n + |stage|, f + StageOpens(stage);
        NoLaunches(k, g);
        EndsFrom(p[2..], cwd, [], k, g, join, code);
        var later := Result(p[2..], cwd, [], k, g, join, code);
        CountConcat(StageEvents(stage, n, f), later.events);
        OperatorGoesOn(p, status);
        EndsLater(p, LaunchCount(later.events), n + |cur|, code, later.outcome);
      } else {
        EndsAtCommand(p, n + |cur|, code);
      }
    }
  }

  lemma PipeGoesOn(p: seq<Node>, status: int)
    requires |p| > 1 && p[1] == PipeOp
    ensures GoesOn(p, 0, status) && !p[1].Command?
  {
  }

  lemma OperatorGoesOn(p: seq<Node>, status: int)
    requires |p| > 1 && p[1] in [And, Or] && if p[1] == And then status == 0 else status != 0
    ensures GoesOn(p, 0, status) && !p[1].Command?
  {
  }

  lemma EndsAtChdir(p: seq<Node>, k0: nat, code: ExitCodes)
    requires p != [] && p[0].Chdir? && (|p| == 1 || p[0].dir == None)
    ensures EndsAs(p, 0, k0, code, if |p| == 1 then IndexError else AttributeError)
  {
    assert CommandsBefore(p, 0) == 0;
  }

  lemma EndsAtCommand(p: seq<Node>, k0: nat, code: ExitCodes)
    requires p != [] && p[0].Command?
    requires |p| > 1 ==> p[1] in [And, Or] && !(if p[1] == And then code(k0) == 0 else code(k0) != 0)
    ensures EndsAs(p, 1, k0, code, Returned(code(k0)))
  {
    assert CommandsBefore(p, 0) == 0;
    assert StopsAt(p, 0, code(k0));
  }

  /**
   run goes through the list until an operator does not let it go on, or the list or a cd ends it; its
   status is that of the last process.
   */
  lemma EndMeans(p: seq<Node>, join: PathJoin, code: ExitCodes)
    requires WellFormed(p) && Proper(Structure(p, ".", [], join))
    ensures var r := Eval(Structure(p, ".", [], join), 0, 0, code);
      EndsAs(p, LaunchCount(r.events), 0, code, r.outcome)
  {
    hide *;
    NoLaunches(0, 0);
    ResultIs(p, ".", [], 0, 0, join, code);
    EndsFrom(p, ".", [], 0, 0, join, code);
  }

  /** All of this about a list of events: every launch is in its place, and the run ends where it has to. */
  ghost predicate RunsAs(p: seq<Node>, join: PathJoin, code: ExitCodes, events: seq<Event>, outcome: Outcome) {
    && (forall i :: 0 <= i < |events| && events[i].Launch? ==> LaunchesSome(events, i, p, ".", false, 0, 0, join))
    && EndsAs(p, LaunchCount(events), 0, code, outcome)
  }

  lemma RunMeans(p: seq<Node>, join: PathJoin, code: ExitCodes)
    requires WellFormed(p) && Proper(Structure(p, ".", [], join))
    ensures var r := Eval(Structure(p, ".", [], join), 0, 0, code);
      RunsAs(p, join, code, r.events, r.outcome)
  {
    hide *;
    NoLaunches(0, 0);
    ResultIs(p, ".", [], 0, 0, join, code);
    var r := Eval(Structure(p, ".", [], join), 0, 0, code);
    forall i | 0 <= i < |r.events| && r.events[i].Launch?
      ensures LaunchesSome(r.events, i, p, ".", false, 0, 0, join)
    {
      LaunchesFrom(p, ".", [], 0, 0, join, code, i);
    }
    EndMeans(p, join, code);
    RunsAsIs(p, join, code, r.events, r.outcome);
  }

  lemma RunsAsIs(p: seq<Node>, join: PathJoin, code: ExitCodes, events: seq<Event>, outcome: Outcome)
    requires forall i :: 0 <= i < |events| && events[i].Launch? ==>
      LaunchesSome(events, i, p, ".", false, 0, 0, join)
    requires EndsAs(p, LaunchCount(events), 0, code, outcome)
    ensures RunsAs(p, join, code, events, outcome)
  {
    hide LaunchesSome, EndsAs, LaunchCount;
  }
}
