/** What each line of a diff means to parse_patchset, spelled out, with or without its final newline. */
module PatchText {
  import opened Basics
  import opened Patchset

  /** '^prefix(.*)$' matches a line that is the prefix and one more line of text, and maybe a newline. */
  lemma MatchRestIff(prefix: string, line: string, v: string)
    ensures MatchRest(prefix, line) == Some(v) <==>
      '\n' !in v && (line == prefix + v || line == prefix + v + "\n")
  {
    if MatchRest(prefix, line) == Some(v) {
      var rest := line[|prefix|..];
      assert line == prefix + rest;
      assert rest == v || rest == v + "\n";
      if rest == v + "\n" {
        assert line == prefix + v + "\n";
      }
    }
    if '\n' !in v && line == prefix + v {
      assert line[|prefix|..] == v && ChopNewline(v) == v;
    }
    if '\n' !in v && line == prefix + v + "\n" {
      assert line[|prefix|..] == v + "\n" && ChopNewline(v + "\n") == v;
    }
  }

  lemma NoRestIff(prefix: string, line: string)
    ensures MatchRest(prefix, line) == None <==>
      forall v :: '\n' !in v ==> line != prefix + v && line != prefix + v + "\n"
  {
    hide MatchRest;
    if MatchRest(prefix, line).Some? {
      MatchRestIff(prefix, line, MatchRest(prefix, line).value);
    }
    forall v | MatchRest(prefix, line) == None && '\n' !in v
      ensures line != prefix + v && line != prefix + v + "\n"
    {
      MatchRestIff(prefix, line, v);
    }
  }

  predicate Number(s: string) {
    s != "" && forall i :: 0 <= i < |s| ==> '0' <= s[i] <= '9'
  }

  /** int() of digits: the last digit is worth least, and leading zeros are worth nothing. */
  lemma DigitsMean(s: string, c: char)
    requires (forall i :: 0 <= i < |s| ==> '0' <= s[i] <= '9') && '0' <= c <= '9'
    ensures FromDecimal("") == 0 && FromDecimal(s + [c]) == 10 * FromDecimal(s) + (c as int - '0' as int)
  {
    assert (s + [c])[..|s|] == s;
  }

  /** A chunk header: four numbers; nothing is asked of what follows it. */
  lemma MatchChunkIff(line: string, a: string, b: string, c: string, d: string)
    ensures MatchChunk(line) == Some((a, b, c, d)) <==>
      Number(a) && Number(b) && Number(c) && Number(d)
      && exists rest :: line == "@@ -" + a + "," + b + " +" + c + "," + d + " @@" + rest
  {
    hide TakeNumber, DigitRun;
    if MatchChunk(line) == Some((a, b, c, d)) {
      ChunkParts(line);
    }
    if Number(a) && Number(b) && Number(c) && Number(d)
       && exists rest :: line == "@@ -" + a + "," + b + " +" + c + "," + d + " @@" + rest {
      var rest :| line == "@@ -" + a + "," + b + " +" + c + "," + d + " @@" + rest;
      ChunkMatches(a, b, c, d, rest);
    }
  }

  lemma ChunkParts(line: string)
    requires MatchChunk(line).Some?
    ensures var (a, b, c, d) := MatchChunk(line).value;
      Number(a) && Number(b) && Number(c) && Number(d)
      && exists rest :: line == "@@ -" + a + "," + b + " +" + c + "," + d + " @@" + rest
  {
    hide TakeNumber, DigitRun;
    var (a, b, c, d) := MatchChunk(line).value;
    var ta := TakeNumber(After("@@ -", Some(line)));
    var tb := TakeNumber(After(",", RestOf(ta)));
    var tc := TakeNumber(After(" +", RestOf(tb)));
    var td := TakeNumber(After(",", RestOf(tc)));
    var rest := After(" @@", RestOf(td)).value;
    assert td.value.1 == " @@" + rest;
    assert tc.value.1 == "," + (d + td.value.1);
    assert tb.value.1 == " +" + (c + tc.value.1);
    assert ta.value.1 == "," + (b + tb.value.1);
    assert line == "@@ -" + (a + ta.value.1);
    hide *;
    Flatten(a, b, c, d, rest);
  }

  lemma Flatten(a: string, b: string, c: string, d: string, rest: string)
    ensures "@@ -" + (a + ("," + (b + (" +" + (c + ("," + (d + (" @@" + rest))))))))
         == "@@ -" + a + "," + b + " +" + c + "," + d + " @@" + rest
  {
  }

  lemma ChunkMatches(a: string, b: string, c: string, d: string, rest: string)
    requires Number(a) && Number(b) && Number(c) && Number(d)
    ensures MatchChunk("@@ -" + a + "," + b + " +" + c + "," + d + " @@" + rest) == Some((a, b, c, d))
  {
    hide DigitRun, TakeNumber;
    var r4 := " @@" + rest;
    var r3 := "," + (d + r4);
    var r2 := " +" + (c + r3);
    var r1 := "," + (b + r2);
    var line := "@@ -" + a + "," + b + " +" + c + "," + d + " @@" + rest;
    assert line == "@@ -" + (a + r1);
    AfterLit("@@ -", a + r1);
    NumberThen(a, r1);
    AfterLit(",", b + r2);
    NumberThen(b, r2);
    AfterLit(" +", c + r3);
    NumberThen(c, r3);
    AfterLit(",", d + r4);
    NumberThen(d, r4);
    AfterLit(" @@", rest);
  }

  // ---------------------------------------------------------------- the sides of a chunk

  /** The source side is what is not added, the destination side what is not removed. */
  lemma SidesMean(ls: seq<Line>, l: Line)
    ensures SrcSide([]) == [] && SrcSide(ls + [l]) == SrcSide(ls) + if l.kind == DST then [] else [l]
    ensures DstSide([]) == [] && DstSide(ls + [l]) == DstSide(ls) + if l.kind == SRC then [] else [l]
  {
    assert (ls + [l])[..|ls|] == ls;
  }

  // ---------------------------------------------------------------- what a line does

  predicate LineEnd(e: string) {
    e == "" || e == "\n"
  }

  lemma PrefixOfText(p: string, text: string, e: string)
    requires '\n' !in p && LineEnd(e)
    ensures p <= text + e <==> p <= text
  {
    var line := text + e;
    if |p| <= |text| {
      assert line[..|p|] == text[..|p|];
    } else {
      assert p[|text|] in p;
      assert e != "" ==> line[|text|] == '\n';
    }
  }

  lemma Reads(prefix: string, text: string, e: string)
    requires '\n' !in text && LineEnd(e)
    ensures MatchRest(prefix, prefix + text + e) == Some(text)
  {
    assert prefix + text + "" == prefix + text;
    MatchRestIff(prefix, prefix + text + e, text);
  }

  /** File headers: a new current patch, or the second name of the current patch. The current chunk stays. */
  lemma FileHeaderMeans(s: ParserState, name: string, e: string)
    requires Fits(s) && '\n' !in name && LineEnd(e)
    ensures Step(s, "--- " + name + e) == Ok(ParserState(s.patches + [Patch(name, "", [])], s.at))
    ensures Step(s, "+++ " + name + e) ==
      if s.patches == [] then AttributeError
      else
        var last := |s.patches| - 1;
        Ok(ParserState(s.patches[last := s.patches[last].(dst := name)], s.at))
  {
    Reads("--- ", name, e);
    Reads("+++ ", name, e);
    var line := "+++ " + name + e;
    assert line[0] == '+';
    OtherStart("--- ", line);
    NoMatch("--- ", line);
    hide MatchRest;
  }

  /** A chunk header: a chunk of the current patch, which becomes the current chunk. */
  lemma ChunkHeaderMeans(s: ParserState, a: string, b: string, c: string, d: string, rest: string)
    requires Fits(s) && Number(a) && Number(b) && Number(c) && Number(d)
    ensures Step(s, "@@ -" + a + "," + b + " +" + c + "," + d + " @@" + rest) ==
      if s.patches == [] then AttributeError
      else
        var last := |s.patches| - 1;
        var p := s.patches[last];
        var chunk := Chunk(FromDecimal(a), FromDecimal(c), []);
        Ok(ParserState(s.patches[last := p.(chunks := p.chunks + [chunk])], Some((last, |p.chunks|))))
  {
    var line := "@@ -" + a + "," + b + " +" + c + "," + d + " @@" + rest;
    assert line[0] == '@';
    OtherStart("--- ", line);
    NoMatch("--- ", line);
    OtherStart("+++ ", line);
    NoMatch("+++ ", line);
    ChunkMatches(a, b, c, d, rest);
    hide MatchRest, MatchChunk;
  }

  function Sign(kind: Kind): string {
    match kind
    case SRC => "-"
    case DST => "+"
    case BOTH => " "
  }

  /** Any other line of text goes into the current chunk, in whichever patch that is. */
  lemma TextMeans(s: ParserState, kind: Kind, text: string, e: string)
    requires Fits(s) && '\n' !in text && LineEnd(e)
    requires (kind == SRC ==> !("-- " <= text)) && (kind == DST ==> !("++ " <= text))
    ensures Step(s, Sign(kind) + text + e) ==
      if s.at == None then NameError
      else
        var (i, j) := s.at.value;
        var p, c := s.patches[i], s.patches[i].chunks[j];
        var more := c.(lines := c.lines + [Line(kind, text)]);
        Ok(ParserState(s.patches[i := p.(chunks := p.chunks[j := more])], s.at))
  {
    var line := Sign(kind) + text + e;
    Reads(Sign(kind), text, e);
    NoFileHeader(kind, text, e);
    assert line[0] == Sign(kind)[0];
    NoChunkStart(line);
    forall other: Kind | other != kind
      ensures MatchRest(Sign(other), line) == None
    {
      OtherStart(Sign(other), line);
      NoMatch(Sign(other), line);
    }
    assert Sign(SRC) == "-" && Sign(DST) == "+" && Sign(BOTH) == " ";
    hide MatchRest, MatchChunk;
  }

  lemma NoFileHeader(kind: Kind, text: string, e: string)
    requires '\n' !in text && LineEnd(e)
    requires (kind == SRC ==> !("-- " <= text)) && (kind == DST ==> !("++ " <= text))
    ensures MatchRest("--- ", Sign(kind) + text + e) == None && MatchRest("+++ ", Sign(kind) + text + e) == None
  {
    var line := Sign(kind) + text + e;
    assert line[0] == Sign(kind)[0];
    if kind == SRC {
      NotStart('-', "-- ", text, e);
      assert ['-'] + "-- " == "--- " && ['-'] == Sign(kind);
    } else {
      OtherStart("--- ", line);
    }
    if kind == DST {
      NotStart('+', "++ ", text, e);
      assert ['+'] + "++ " == "+++ " && ['+'] == Sign(kind);
    } else {
      OtherStart("+++ ", line);
    }
    NoMatch("--- ", line);
    NoMatch("+++ ", line);
  }

  lemma NotStart(c: char, tail: string, text: string, e: string)
    requires '\n' !in tail && !(tail <= text) && LineEnd(e)
    ensures !([c] + tail <= [c] + text + e)
  {
    var line := [c] + text + e;
    assert line[1..] == text + e && ([c] + tail)[1..] == tail;
    assert [c] + tail <= line ==> tail <= text + e;
    PrefixOfText(tail, text, e);
  }

  /** Nothing else is read. */
  lemma OtherLinesFail(s: ParserState, line: string)
    requires Fits(s) && (line == "" || line[0] !in ['-', '+', ' ', '@'])
    ensures Step(s, line) == Unrecognised
  {
    if line == "" {
      assert MatchChunk(line) == None;
    } else {
      OtherStart("--- ", line);
      OtherStart("+++ ", line);
      OtherStart("-", line);
      OtherStart("+", line);
      OtherStart(" ", line);
      NoChunkStart(line);
    }
    NoMatch("--- ", line);
    NoMatch("+++ ", line);
    NoMatch("-", line);
    NoMatch("+", line);
    NoMatch(" ", line);
    hide MatchRest, MatchChunk;
  }

  // ---------------------------------------------------------------- final newlines

  function Front(a: string, b: string, c: string, d: string): (s: string)
    ensures s != "" && s[|s|-1] == '@'
  {
    "@@ -" + a + "," + b + " +" + c + "," + d + " @@"
  }

  lemma FrontIff(line: string, a: string, b: string, c: string, d: string)
    ensures MatchChunk(line) == Some((a, b, c, d)) <==>
      Number(a) && Number(b) && Number(c) && Number(d) && Front(a, b, c, d) <= line
  {
    hide MatchChunk;
    MatchChunkIff(line, a, b, c, d);
    var front := Front(a, b, c, d);
    assert forall rest :: front <= front + rest;
    if front <= line {
      assert line == front + line[|front|..];
    }
  }

  lemma MatchChunkNewline(line: string)
    requires '\n' !in line
    ensures MatchChunk(line) == MatchChunk(line + "\n")
  {
    hide MatchChunk, Front;
    forall a, b, c, d
      ensures MatchChunk(line) == Some((a, b, c, d)) <==> MatchChunk(line + "\n") == Some((a, b, c, d))
    {
      FrontIff(line, a, b, c, d);
      FrontIff(line + "\n", a, b, c, d);
      var front := Front(a, b, c, d);
      assert front <= line + "\n" ==> (line + "\n")[|front|-1] == '@';
      assert front <= line + "\n" && |front| <= |line| ==> front == (line + "\n")[..|front|] == line[..|front|];
    }
    if MatchChunk(line).Some? {
      var (a, b, c, d) := MatchChunk(line).value;
    }
    if MatchChunk(line + "\n").Some? {
      var (a, b, c, d) := MatchChunk(line + "\n").value;
    }
  }

  lemma MatchRestNewline(prefix: string, line: string)
    requires '\n' !in line && '\n' !in prefix
    ensures MatchRest(prefix, line) == MatchRest(prefix, line + "\n")
  {
    PrefixOfText(prefix, line, "\n");
    if prefix <= line {
      var rest := line[|prefix|..];
      assert (line + "\n")[|prefix|..] == rest + "\n";
      assert ChopNewline(rest + "\n") == rest && ChopNewline(rest) == rest;
      assert prefix <= line + "\n";
    }
  }

  /** A step does not see whether the line has its final newline. */
  lemma StepNewline(s: ParserState, line: string)
    requires Fits(s) && '\n' !in line
    ensures Step(s, line) == Step(s, line + "\n")
  {
    MatchRestNewline("--- ", line);
    MatchRestNewline("+++ ", line);
    MatchRestNewline("-", line);
    MatchRestNewline("+", line);
    MatchRestNewline(" ", line);
    MatchChunkNewline(line);
    hide MatchRest, MatchChunk, AddLine, AddChunk, SetDst, FromDecimal;
  }

  /** The same lines, except that final newlines may be missing in a. */
  predicate SameButNewlines(a: seq<string>, b: seq<string>) {
    |a| == |b| && forall i :: 0 <= i < |a| ==> a[i] == b[i] || ('\n' !in a[i] && b[i] == a[i] + "\n")
  }

  lemma {:induction false} StepsNewline(s: ParserState, a: seq<string>, b: seq<string>)
    requires Fits(s) && SameButNewlines(a, b)
    ensures Steps(s, a) == Steps(s, b)
    decreases |a|
  {
    hide Step;
    if a != [] {
      if a[0] != b[0] {
        StepNewline(s, a[0]);
      }
      if Step(s, a[0]).Ok? {
        StepsNewline(Step(s, a[0]).value, a[1..], b[1..]);
      }
    }
  }

  /** Taking off final newlines does not change what is parsed. */
  lemma ParseNewline(a: seq<string>, b: seq<string>)
    requires SameButNewlines(a, b)
    ensures Parse(a) == Parse(b)
  {
    StepsNewline(START, a, b);
  }
}
