/**
 What Pipeline.run prints for a stage when it is verbose, and when parsing it gives the stage back. The
 display is taken as its list of words, which run joins with blanks.
 */
module ShellDisplay {
  import opened Basics
  import opened ShellSyntax
  import opened ShellEval

  /** Lines 224-273 and 307-309 up to the end of the stage; a piped command shows no "<". */
  ghost function Display(p: seq<Node>, piped: bool, order: map<string, string> -> seq<string>): seq<string>
    requires KeyOrder(order) && WellFormed(p) && Runnable(p)
    decreases |p|
  {
    if p[0].Chdir? then
      RunnableTail(p);
      ["cd", p[0].dir.value, "&&"] + Display(p[2..], piped, order)
    else
      var words := PrintNode(if piped then p[0].(stdin := Inherit) else p[0], order);
      if |p| > 1 && p[1] == PipeOp then
        RunnableTail(p);
        words + ["|"] + Display(p[2..], true, order)
      else words
  }

  /** All operators but the pipes belong to a cd. */
  predicate OneStage(p: seq<Node>) {
    forall i :: 0 <= i < |p| ==> p[i] != Or && (p[i] == And ==> i > 0 && p[i-1].Chdir?)
  }

  /** The stage that is displayed: its piped commands read no file. */
  function Shown(p: seq<Node>, piped: bool): seq<Node>
    requires WellFormed(p)
    decreases |p|
  {
    var first := if piped && p[0].Command? then p[0].(stdin := Inherit) else p[0];
    if |p| == 1 then [first] else [first, p[1]] + Shown(p[2..], piped || p[1] == PipeOp)
  }

  /** No command after a pipe reads a file. */
  predicate NoPipedFile(p: seq<Node>) {
    forall i, j :: 0 <= i < j < |p| && p[i] == PipeOp && p[j].Command? ==> p[j].stdin == Inherit
  }

  predicate NoFile(p: seq<Node>) {
    forall j :: 0 <= j < |p| && p[j].Command? ==> p[j].stdin == Inherit
  }

  lemma OneStageTail(p: seq<Node>)
    requires WellFormed(p) && OneStage(p) && |p| > 2
    ensures OneStage(p[2..])
    ensures p[0].Chdir? || p[1] == PipeOp
  {
    assert p[2] != And;
    assert forall i :: 2 <= i < |p| ==> p[i] == p[2..][i-2];
  }

  lemma {:induction false} ShownIsWellFormed(p: seq<Node>, piped: bool)
    requires WellFormed(p)
    ensures WellFormed(Shown(p, piped))
    decreases |p|
  {
    if |p| > 1 {
      ShownIsWellFormed(p[2..], piped || p[1] == PipeOp);
      assert Shown(p, piped)[2..] == Shown(p[2..], piped || p[1] == PipeOp);
    }
  }

  lemma PrintChdir(c: Node, order: map<string, string> -> seq<string>)
    requires KeyOrder(order) && c.Chdir? && c.dir.Some?
    ensures PrintNode(c, order) + PrintNode(And, order) == ["cd", c.dir.value, "&&"]
  {
  }

  /** One node and its operator. */
  lemma DisplayStep(p: seq<Node>, piped: bool, order: map<string, string> -> seq<string>)
    requires KeyOrder(order) && WellFormed(p) && Runnable(p) && |p| > 2 && (p[0].Chdir? || p[1] == PipeOp)
    ensures WellFormed(p[2..]) && Runnable(p[2..])
    ensures var first := if piped && p[0].Command? then p[0].(stdin := Inherit) else p[0];
      Display(p, piped, order)
        == PrintNode(first, order) + PrintNode(p[1], order) + Display(p[2..], piped || p[1] == PipeOp, order)
  {
    assert p[0].Chdir? ==> p[1] == And;
    RunnableTail(p);
    hide WellFormed, Runnable;
    if p[0].Chdir? {
      PrintChdir(p[0], order);
    }
  }

  lemma PrintTwo(a: Node, b: Node, later: seq<Node>, order: map<string, string> -> seq<string>)
    requires KeyOrder(order)
    ensures Print([a, b] + later, order) == PrintNode(a, order) + PrintNode(b, order) + Print(later, order)
  {
    hide PrintNode;
    var p := [a, b] + later;
    assert p[1..][0] == b && p[1..][1..] == later;
    assert Print(p[1..], order) == PrintNode(b, order) + Print(later, order);
  }

  lemma PrintOne(a: Node, order: map<string, string> -> seq<string>)
    requires KeyOrder(order)
    ensures Print([a], order) == PrintNode(a, order)
  {
    hide PrintNode;
    assert [a][1..] == [];
  }

  lemma {:induction false} DisplayIsPrint(p: seq<Node>, piped: bool, order: map<string, string> -> seq<string>)
    requires KeyOrder(order) && WellFormed(p) && Runnable(p) && OneStage(p)
    ensures Display(p, piped, order) == Print(Shown(p, piped), order)
    decreases |p|
  {
    var first := if piped && p[0].Command? then p[0].(stdin := Inherit) else p[0];
    assert |p| == 1 ==> p[0].Command?;
    hide PrintNode, Print;
    if |p| == 1 {
      PrintOne(first, order);
    } else {
      OneStageTail(p);
      DisplayStep(p, piped, order);
      hide Display, WellFormed, Runnable;
      DisplayIsPrint(p[2..], piped || p[1] == PipeOp, order);
      PrintTwo(first, p[1], Shown(p[2..], piped || p[1] == PipeOp), order);
    }
  }

  lemma {:induction false} ShownIsSame(p: seq<Node>, piped: bool)
    requires WellFormed(p)
    ensures Shown(p, piped) == p <==> if piped then NoFile(p) else NoPipedFile(p)
    decreases |p|
  {
    if |p| > 1 {
      var q := p[2..];
      ShownIsSame(q, piped || p[1] == PipeOp);
      TailFiles(p);
      hide NoFile, NoPipedFile;
      assert p == [p[0], p[1]] + q;
    }
  }

  lemma TailFiles(p: seq<Node>)
    requires WellFormed(p) && |p| > 1
    ensures p[1] == PipeOp ==> (NoPipedFile(p) <==> NoFile(p[2..]))
    ensures p[1] != PipeOp ==> (NoPipedFile(p) <==> NoPipedFile(p[2..]))
    ensures NoFile(p) <==> (p[0].Command? ==> p[0].stdin == Inherit) && NoFile(p[2..])
  {
    assert p[0] != PipeOp && !p[1].Command?;
    hide WellFormed, NoFile, NoPipedFile;
    var q := p[2..];
    assert p == [p[0], p[1]] + q;
    FileBehind(p[0], p[1], q);
    if p[1] == PipeOp {
      FilesAfterPipe(p[0], q);
    } else {
      FilesAfterOther(p[0], p[1], q);
    }
  }

  lemma FileBehind(n: Node, op: Node, q: seq<Node>)
    requires !op.Command?
    ensures NoFile([n, op] + q) <==> (n.Command? ==> n.stdin == Inherit) && NoFile(q)
  {
    var p := [n, op] + q;
    assert p[0] == n && p[1] == op;
    assert forall j :: 2 <= j < |p| ==> p[j] == q[j-2];
    if NoFile(p) {
      forall j | 0 <= j < |q| && q[j].Command?
        ensures q[j].stdin == Inherit
      {
        assert p[j+2] == q[j];
      }
    }
  }

  lemma FilesAfterPipe(n: Node, q: seq<Node>)
    requires n != PipeOp
    ensures NoPipedFile([n, PipeOp] + q) <==> NoFile(q)
  {
    var p := [n, PipeOp] + q;
    assert p[1] == PipeOp;
    assert forall j :: 2 <= j < |p| ==> p[j] == q[j-2];
    if NoPipedFile(p) {
      forall j | 0 <= j < |q| && q[j].Command?
        ensures q[j].stdin == Inherit
      {
        assert p[j+2] == q[j];
      }
    }
  }

  lemma FilesAfterOther(n: Node, op: Node, q: seq<Node>)
    requires n != PipeOp && op != PipeOp
    ensures NoPipedFile([n, op] + q) <==> NoPipedFile(q)
  {
    var p := [n, op] + q;
    assert forall j :: 2 <= j < |p| ==> p[j] == q[j-2];
    assert forall j :: 0 <= j < |q| ==> q[j] == p[j+2];
  }

  /** The display of a stage parses to the stage with the files of its piped commands forgotten. */
  lemma DisplayParses(p: seq<Node>, order: map<string, string> -> seq<string>)
    requires KeyOrder(order) && WellFormed(p) && Runnable(p) && OneStage(p)
    ensures ParseTokens(Display(p, false, order)) == Ok(Shown(p, false))
  {
    DisplayIsPrint(p, false, order);
    ShownIsWellFormed(p, false);
    RoundTrip(Shown(p, false), order);
  }

  /** It gives the stage back exactly if no command after a pipe reads a file. */
  lemma DisplayIff(p: seq<Node>, order: map<string, string> -> seq<string>)
    requires KeyOrder(order) && WellFormed(p) && Runnable(p) && OneStage(p)
    ensures ParseTokens(Display(p, false, order)) == Ok(p) <==> NoPipedFile(p)
  {
    hide *;
    DisplayParses(p, order);
    ShownIsSame(p, false);
  }

  /** a | b < file is displayed as a | b. */
  lemma HiddenFile(a: Node, b: Node, order: map<string, string> -> seq<string>)
    requires KeyOrder(order)
    requires GoodCommand(a) && a.stdout == Pipe && GoodCommand(b) && b.stdout != Pipe && b.stdin.File?
    ensures WellFormed([a, PipeOp, b])
    ensures ParseTokens(Display([a, PipeOp, b], false, order)) == Ok([a, PipeOp, b.(stdin := Inherit)])
  {
    var p := [a, PipeOp, b];
    assert p[2..] == [b];
    assert WellFormed([b]);
    hide GoodCommand;
    assert OneStage(p) && Runnable(p);
    var q := Shown([b], true);
    assert q == [b.(stdin := Inherit)];
    assert Shown(p, false) == [a, PipeOp] + q == [a, PipeOp, b.(stdin := Inherit)];
    hide *;
    DisplayParses(p, order);
  }

  lemma DisplayEnd(p: seq<Node>, piped: bool, order: map<string, string> -> seq<string>)
    requires KeyOrder(order) && WellFormed(p) && Runnable(p) && p[0].Command? && (|p| == 1 || p[1] != PipeOp)
    ensures Display(p, piped, order) == PrintNode(if piped then p[0].(stdin := Inherit) else p[0], order)
  {
    hide PrintNode;
  }

  /** The parts of run's loop that fill piped_commands_display, up to the end of the first stage. */
  method DisplayStage(pipeline: seq<Node>, order: map<string, string> -> seq<string>) returns (display: seq<string>)
    requires KeyOrder(order) && WellFormed(pipeline) && Runnable(pipeline)
    ensures display == Display(pipeline, false, order)
  {
    hide Display, PrintNode, WellFormed, Runnable, KeyOrder, GoodCommand, GoodChdir;
    var nodes, piped := pipeline, false;
    display := [];
    while true
      invariant WellFormed(nodes) && Runnable(nodes)
      invariant Display(pipeline, false, order) == display + Display(nodes, piped, order)
      decreases |nodes|
    {
      NodeFacts(nodes);
      var node := nodes[0];
      if node.Chdir? {
        DisplayStep(nodes, piped, order);
        PrintChdir(node, order);
        display := display + ["cd", node.dir.value, "&&"];
        nodes := nodes[2..];
        continue;
      }
      var words := DisplayCommand(node, piped, order);
      if |nodes| == 1 || nodes[1] != PipeOp {
        DisplayEnd(nodes, piped, order);
        display := display + words;
        return;
      }
      DisplayStep(nodes, piped, order);
      PrintPipe(order);
      display := display + words;
      display := display + ["|"];
      nodes, piped := nodes[2..], true;
    }
  }

  lemma PrintPipe(order: map<string, string> -> seq<string>)
    requires KeyOrder(order)
    ensures PrintNode(PipeOp, order) == ["|"]
  {
  }

  lemma NodeFacts(p: seq<Node>)
    requires WellFormed(p) && Runnable(p)
    ensures p != [] && (p[0].Chdir? || (p[0].Command? && GoodCommand(p[0])))
    ensures p[0].Chdir? ==> p[0].dir.Some? && |p| > 2 && p[1] == And
    ensures |p| > 1 ==> |p| > 2
  {
  }

  /** Lines 234-273. */
  method DisplayCommand(cmd: Node, piped: bool, order: map<string, string> -> seq<string>) returns (words: seq<string>)
    requires KeyOrder(order) && cmd.Command?
    ensures words == PrintNode(if piped then cmd.(stdin := Inherit) else cmd, order)
  {
    hide Settings, Redirect;
    words := [];
    if cmd.env.Some? {
      assert Enumerates(order(cmd.env.value), cmd.env.value.Keys);
      words := Settings(order(cmd.env.value), cmd.env.value);
    }
    words := words + cmd.argv;
    words := words + Redirect("<", if piped then Inherit else cmd.stdin);
    words := words + Redirect(">", cmd.stdout);
    words := words + if cmd.stderr == Stdout then ["2>&1"] else Redirect("2>", cmd.stderr);
  }

  /** The words of a command, in the order in which they are displayed. */
  lemma WordsMean(n: Node, order: map<string, string> -> seq<string>)
    requires KeyOrder(order) && n.Command?
    ensures var env := if n.env.Some? then n.env.value else map[];
      var keys := if n.env.Some? then order(env) else [];
      var k, words := |keys|, PrintNode(n, order);
      && (forall key :: key in keys <==> key in env)
      && |words| >= k && (forall i :: 0 <= i < k ==> words[i] == keys[i] + "=" + env[keys[i]])
      && words[k..] == n.argv + (if n.stdin.File? then ["<", n.stdin.name] else [])
        + (if n.stdout.File? then [">", n.stdout.name] else [])
        + if n.stderr == Stdout then ["2>&1"] else if n.stderr.File? then ["2>", n.stderr.name] else []
  {
    assert n.env.Some? ==> Enumerates(order(n.env.value), n.env.value.Keys);
    var settings := if n.env.Some? then Settings(order(n.env.value), n.env.value) else [];
    var ins, outs := Redirect("<", n.stdin), Redirect(">", n.stdout);
    var errs := if n.stderr == Stdout then ["2>&1"] else Redirect("2>", n.stderr);
    assert PrintNode(n, order) == settings + n.argv + ins + outs + errs;
    Behind(settings, n.argv, ins, outs, errs);
    hide PrintNode;
  }

  lemma Behind<T>(a: seq<T>, b: seq<T>, c: seq<T>, d: seq<T>, e: seq<T>)
    ensures (a + b + c + d + e)[..|a|] == a && (a + b + c + d + e)[|a|..] == b + c + d + e
  {
  }
}
