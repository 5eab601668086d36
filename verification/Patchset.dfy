/**
 The unified-diff parser and the write methods of check-style.py. Lines come from a file or a pipe, so
 each holds at most a final newline; write emits one line per call.
 */
module Patchset {
  import opened Basics

  datatype Kind = SRC | DST | BOTH

  datatype Line = Line(kind: Kind, text: string) {
    predicate IsSrc() { kind == SRC || kind == BOTH }
    predicate IsDst() { kind == DST || kind == BOTH }
  }

  datatype Chunk = Chunk(srcPos: nat, dstPos: nat, lines: seq<Line>)

  datatype Patch = Patch(src: string, dst: string, chunks: seq<Chunk>)

  /** AttributeError: no current patch. NameError: no current chunk. Unrecognised: no expression matches. */
  datatype Result<+T> = Ok(value: T) | AttributeError | NameError | Unrecognised

  // ---------------------------------------------------------------- numbers

  predicate Digit(c: char) {
    '0' <= c <= '9'
  }

  predicate Digits(s: string) {
    s != "" && forall i :: 0 <= i < |s| ==> Digit(s[i])
  }

  /** "%d" of a position or a count. */
  function ToDecimal(n: nat): (s: string)
    ensures Digits(s)
  {
    if n < 10 then ['0' + n as char] else ToDecimal(n / 10) + ['0' + (n % 10) as char]
  }

  /** int() of a string of digits. */
  function FromDecimal(s: string): nat
    requires forall i :: 0 <= i < |s| ==> Digit(s[i])
  {
    if s == "" then 0
    else
      assert Digit(s[|s|-1]);
      10 * FromDecimal(s[..|s|-1]) + (s[|s|-1] as int - '0' as int)
  }

  lemma {:induction false} DecimalRoundTrip(n: nat)
    ensures FromDecimal(ToDecimal(n)) == n
  {
    var s := ToDecimal(n);
    if n >= 10 {
      DecimalRoundTrip(n / 10);
      assert s[..|s|-1] == ToDecimal(n / 10);
    } else {
      assert s[..|s|-1] == "";
    }
  }

  /** The length of the longest run of digits at the front. */
  function DigitRun(s: string): (n: nat)
    ensures n <= |s| && (forall i :: 0 <= i < n ==> Digit(s[i])) && (n < |s| ==> !Digit(s[n]))
  {
    if s == "" || !Digit(s[0]) then 0
    else
      var n := 1 + DigitRun(s[1..]);
      assert forall i :: 1 <= i < n ==> s[i] == s[1..][i-1];
      n
  }

  // ---------------------------------------------------------------- the regular expressions

  /** "^prefix(.*)$", where '.' is not a newline. */
  function MatchRest(prefix: string, line: string): Option<string> {
    if prefix <= line && '\n' !in ChopNewline(line[|prefix|..]) then Some(ChopNewline(line[|prefix|..])) else None
  }

  /** A literal that must come next. */
  function After(lit: string, s: Option<string>): Option<string> {
    if s.Some? && lit <= s.value then Some(s.value[|lit|..]) else None
  }

  /** "[0-9]+": the digits and the rest. */
  function TakeNumber(s: Option<string>): (r: Option<(string, string)>)
    ensures r.Some? ==> Digits(r.value.0) && s == Some(r.value.0 + r.value.1)
  {
    if s.Some? && DigitRun(s.value) > 0 then
      var n := DigitRun(s.value);
      assert s.value == s.value[..n] + s.value[n..];
      Some((s.value[..n], s.value[n..]))
    else None
  }

  function RestOf(m: Option<(string, string)>): Option<string> {
    if m.Some? then Some(m.value.1) else None
  }

  /** chunk_start: the four numbers. */
  function MatchChunk(line: string): (r: Option<(string, string, string, string)>)
    ensures r.Some? ==> Digits(r.value.0) && Digits(r.value.1) && Digits(r.value.2) && Digits(r.value.3)
  {
    var a := TakeNumber(After("@@ -", Some(line)));
    var b := TakeNumber(After(",", RestOf(a)));
    var c := TakeNumber(After(" +", RestOf(b)));
    var d := TakeNumber(After(",", RestOf(c)));
    if After(" @@", RestOf(d)).Some? then Some((a.value.0, b.value.0, c.value.0, d.value.0)) else None
  }

  // ---------------------------------------------------------------- parsing

  /** current_patch is the last patch; at is where current_chunk sits, possibly in an earlier patch. */
  datatype ParserState = ParserState(patches: seq<Patch>, at: Option<(nat, nat)>)

  predicate Fits(s: ParserState) {
    s.at.Some? ==> s.at.value.0 < |s.patches| && s.at.value.1 < |s.patches[s.at.value.0].chunks|
  }

  function AddLine(s: ParserState, l: Line): (r: Result<ParserState>)
    requires Fits(s)
    ensures r.Ok? ==> Fits(r.value)
  {
    if s.at == None then NameError
    else
      var (i, j) := s.at.value;
      var patch := s.patches[i];
      var chunk := patch.chunks[j];
      Ok(s.(patches := s.patches[i := patch.(chunks := patch.chunks[j := chunk.(lines := chunk.lines + [l])])]))
  }

  /** A chunk of the current patch, which becomes the current chunk. */
  function AddChunk(s: ParserState, chunk: Chunk): (r: Result<ParserState>)
    ensures r.Ok? ==> Fits(r.value)
  {
    var n := |s.patches|;
    if n == 0 then AttributeError
    else
      var patch := s.patches[n-1];
      Ok(ParserState(s.patches[n-1 := patch.(chunks := patch.chunks + [chunk])], Some((n - 1, |patch.chunks|))))
  }

  function SetDst(s: ParserState, dst: string): (r: Result<ParserState>)
    requires Fits(s)
    ensures r.Ok? ==> Fits(r.value)
  {
    var n := |s.patches|;
    if n == 0 then AttributeError else Ok(s.(patches := s.patches[n-1 := s.patches[n-1].(dst := dst)]))
  }

  function Step(s: ParserState, line: string): (r: Result<ParserState>)
    requires Fits(s)
    ensures r.Ok? ==> Fits(r.value)
  {
    if MatchRest("--- ", line).Some? then
      Ok(s.(patches := s.patches + [Patch(MatchRest("--- ", line).value, "", [])]))
    else if MatchRest("+++ ", line).Some? then SetDst(s, MatchRest("+++ ", line).value)
    else if MatchChunk(line).Some? then
      var m := MatchChunk(line).value;
      AddChunk(s, Chunk(FromDecimal(m.0), FromDecimal(m.2), []))
    else if MatchRest("-", line).Some? then AddLine(s, Line(SRC, MatchRest("-", line).value))
    else if MatchRest("+", line).Some? then AddLine(s, Line(DST, MatchRest("+", line).value))
    else if MatchRest(" ", line).Some? then AddLine(s, Line(BOTH, MatchRest(" ", line).value))
    else Unrecognised
  }

  function Steps(s: ParserState, lines: seq<string>): (r: Result<ParserState>)
    requires Fits(s)
    ensures r.Ok? ==> Fits(r.value)
    decreases |lines|
  {
    if lines == [] then Ok(s)
    else match Step(s, lines[0])
      case Ok(t) => Steps(t, lines[1..])
      case AttributeError => AttributeError
      case NameError => NameError
      case Unrecognised => Unrecognised
  }

  const START := ParserState([], None)

  function Parse(lines: seq<string>): Result<seq<Patch>> {
    match Steps(START, lines)
    case Ok(s) => Ok(s.patches)
    case AttributeError => AttributeError
    case NameError => NameError
    case Unrecognised => Unrecognised
  }

  lemma {:induction false} StepsConcat(s: ParserState, a: seq<string>, b: seq<string>)
    requires Fits(s) && Steps(s, a).Ok?
    ensures Steps(s, a + b) == Steps(Steps(s, a).value, b)
    decreases |a|
  {
    hide Step;
    if a == [] {
      assert a + b == b;
    } else {
      assert (a + b)[0] == a[0] && (a + b)[1..] == a[1..] + b;
      StepsConcat(Step(s, a[0]).value, a[1..], b);
    }
  }

  // ---------------------------------------------------------------- writing

  function WriteLine(l: Line): string {
    (match l.kind case SRC => "-" case DST => "+" case BOTH => " ") + l.text + "\n"
  }

  function WriteLines(ls: seq<Line>): seq<string> {
    if ls == [] then [] else WriteLines(ls[..|ls|-1]) + [WriteLine(ls[|ls|-1])]
  }

  /** The lines of the file before and after the change, in order. */
  function SrcSide(ls: seq<Line>): seq<Line> {
    if ls == [] then [] else SrcSide(ls[..|ls|-1]) + if ls[|ls|-1].IsSrc() then [ls[|ls|-1]] else []
  }

  function DstSide(ls: seq<Line>): seq<Line> {
    if ls == [] then [] else DstSide(ls[..|ls|-1]) + if ls[|ls|-1].IsDst() then [ls[|ls|-1]] else []
  }

  function Header(c: Chunk): string {
    "@@ -" + ToDecimal(c.srcPos) + "," + ToDecimal(|SrcSide(c.lines)|) + " +" + ToDecimal(c.dstPos) + ","
    + ToDecimal(|DstSide(c.lines)|) + " @@" + "\n"
  }

  function WriteChunks(cs: seq<Chunk>): seq<string> {
    if cs == [] then []
    else WriteChunks(cs[..|cs|-1]) + [Header(cs[|cs|-1])] + WriteLines(cs[|cs|-1].lines)
  }

  function WritePatch(p: Patch): seq<string> {
    ["--- " + p.src + "\n", "+++ " + p.dst + "\n"] + WriteChunks(p.chunks)
  }

  function Write(ps: seq<Patch>): seq<string> {
    if ps == [] then [] else Write(ps[..|ps|-1]) + WritePatch(ps[|ps|-1])
  }

  // ---------------------------------------------------------------- one written line

  predicate OneLine(s: string) {
    '\n' !in s
  }

  lemma MatchWritten(prefix: string, text: string)
    requires OneLine(text)
    ensures MatchRest(prefix, prefix + text + "\n") == Some(text)
  {
    var line := prefix + text + "\n";
    assert line[|prefix|..] == text + "\n";
    assert ChopNewline(text + "\n") == text;
  }

  /** The lines that write would turn into a file header. */
  predicate Confusing(l: Line) {
    (l.kind == SRC && "-- " <= l.text) || (l.kind == DST && "++ " <= l.text)
  }

  lemma NumberThen(digits: string, rest: string)
    requires Digits(digits) && (rest == "" || !Digit(rest[0]))
    ensures TakeNumber(Some(digits + rest)) == Some((digits, rest))
  {
    var s := digits + rest;
    var n := DigitRun(s);
    assert forall i :: 0 <= i < |digits| ==> s[i] == digits[i];
    assert rest != "" ==> s[|digits|] == rest[0];
    assert n == |digits|;
    assert s[..n] == digits && s[n..] == rest;
  }

  lemma AfterLit(lit: string, rest: string)
    ensures After(lit, Some(lit + rest)) == Some(rest)
  {
  }

  /** The header gives back both positions and both counts. */
  lemma MatchHeader(c: Chunk)
    ensures MatchChunk(Header(c)) == Some((ToDecimal(c.srcPos), ToDecimal(|SrcSide(c.lines)|),
                                           ToDecimal(c.dstPos), ToDecimal(|DstSide(c.lines)|)))
  {
    var a, b := ToDecimal(c.srcPos), ToDecimal(|SrcSide(c.lines)|);
    var x, y := ToDecimal(c.dstPos), ToDecimal(|DstSide(c.lines)|);
    var r4 := " @@" + "\n";
    var r3 := "," + (y + r4);
    var r2 := " +" + (x + r3);
    var r1 := "," + (b + r2);
    hide DigitRun, ToDecimal;
    assert Header(c) == "@@ -" + (a + r1);
    AfterLit("@@ -", a + r1);
    NumberThen(a, r1);
    AfterLit(",", b + r2);
    NumberThen(b, r2);
    AfterLit(" +", x + r3);
    NumberThen(x, r3);
    AfterLit(",", y + r4);
    NumberThen(y, r4);
    AfterLit(" @@", "\n");
  }

  // ---------------------------------------------------------------- printing and parsing again

  lemma PrefixOfLine(c: char, p: string, text: string)
    requires OneLine(p)
    ensures [c] + p <= [c] + text + "\n" <==> p <= text
  {
    var line := [c] + text + "\n";
    if p <= text {
      assert text == p + text[|p|..];
      assert line == [c] + p + (text[|p|..] + "\n");
    }
    if [c] + p <= line {
      assert forall i :: 0 <= i < |p| ==> p[i] == ([c] + p)[i+1] && p[i] == line[i+1];
      assert line[|text|+1] == '\n' && forall i :: 0 <= i < |p| ==> p[i] in p && p[i] != '\n';
      assert |p| <= |text|;
      assert p == text[..|p|];
    }
  }

  lemma NoMatch(prefix: string, line: string)
    ensures !(prefix <= line) ==> MatchRest(prefix, line) == None
  {
  }

  lemma OtherStart(prefix: string, line: string)
    requires prefix != "" && line != "" && prefix[0] != line[0]
    ensures !(prefix <= line)
  {
  }

  lemma NoChunkStart(line: string)
    requires line != "" && line[0] != '@'
    ensures MatchChunk(line) == None
  {
    OtherStart("@@ -", line);
  }

  /** "--- " and "+++ " as header expressions see the line. */
  lemma HeaderMatches(l: Line)
    requires OneLine(l.text)
    ensures MatchRest("--- ", WriteLine(l)) == if l.kind == SRC && Confusing(l) then Some(l.text[3..]) else None
    ensures MatchRest("+++ ", WriteLine(l)) == if l.kind == DST && Confusing(l) then Some(l.text[3..]) else None
  {
    var line := WriteLine(l);
    PrefixOfLine('-', "-- ", l.text);
    PrefixOfLine('+', "++ ", l.text);
    assert "--- " == ['-'] + "-- " && "+++ " == ['+'] + "++ ";
    NoMatch("--- ", line);
    NoMatch("+++ ", line);
    assert l.kind != SRC ==> !("--- " <= line) by { assert l.kind != SRC ==> line[0] != '-'; }
    assert l.kind != DST ==> !("+++ " <= line) by { assert l.kind != DST ==> line[0] != '+'; }
    if Confusing(l) {
      var prefix := if l.kind == SRC then "--- " else "+++ ";
      assert l.text == prefix[1..] + l.text[3..];
      hide MatchRest;
      MatchWritten(prefix, l.text[3..]);
      assert line == prefix + l.text[3..] + "\n";
    }
  }

  /** No expression but the three line expressions, and a header if the line is confusing, can match. */
  lemma LineMatches(l: Line)
    requires OneLine(l.text)
    ensures MatchChunk(WriteLine(l)) == None
    ensures MatchRest("-", WriteLine(l)) == if l.kind == SRC then Some(l.text) else None
    ensures MatchRest("+", WriteLine(l)) == if l.kind == DST then Some(l.text) else None
    ensures MatchRest(" ", WriteLine(l)) == if l.kind == BOTH then Some(l.text) else None
  {
    hide MatchRest, MatchChunk;
    var line := WriteLine(l);
    NoChunkStart(line);
    NoMatch("-", line);
    NoMatch("+", line);
    NoMatch(" ", line);
    MatchWritten(match l.kind case SRC => "-" case DST => "+" case BOTH => " ", l.text);
  }

  lemma StepWrittenLine(s: ParserState, l: Line)
    requires Fits(s) && OneLine(l.text)
    ensures Step(s, WriteLine(l)) ==
      if l.kind == SRC && Confusing(l) then Ok(s.(patches := s.patches + [Patch(l.text[3..], "", [])]))
      else if l.kind == DST && Confusing(l) then
        if |s.patches| == 0 then AttributeError
        else Ok(s.(patches := s.patches[|s.patches|-1 := s.patches[|s.patches|-1].(dst := l.text[3..])]))
      else AddLine(s, l)
  {
    hide AddLine, MatchRest, MatchChunk, WriteLine;
    HeaderMatches(l);
    LineMatches(l);
  }

  // ---------------------------------------------------------------- the round trip

  /** Where current_chunk is after ps has been parsed. */
  function LastChunk(ps: seq<Patch>): (r: Option<(nat, nat)>)
    ensures r.Some? ==> r.value.0 < |ps| && r.value.1 < |ps[r.value.0].chunks|
  {
    if ps == [] then None
    else if ps[|ps|-1].chunks != [] then Some((|ps| - 1, |ps[|ps|-1].chunks| - 1))
    else LastChunk(ps[..|ps|-1])
  }

  predicate ClearLines(ls: seq<Line>) {
    forall k :: 0 <= k < |ls| ==> OneLine(ls[k].text) && !Confusing(ls[k])
  }

  predicate ClearChunks(cs: seq<Chunk>) {
    forall j :: 0 <= j < |cs| ==> ClearLines(cs[j].lines)
  }

  predicate ClearPatches(ps: seq<Patch>) {
    forall i :: 0 <= i < |ps| ==> OneLine(ps[i].src) && OneLine(ps[i].dst) && ClearChunks(ps[i].chunks)
  }

  /** The state inside the last chunk of the last patch. */
  function InChunk(ps: seq<Patch>, p: Patch, c: Chunk): ParserState {
    ParserState(ps + [p.(chunks := p.chunks + [c])], Some((|ps|, |p.chunks|)))
  }

  lemma AddInChunk(ps: seq<Patch>, p: Patch, c: Chunk, l: Line)
    ensures Fits(InChunk(ps, p, c))
    ensures AddLine(InChunk(ps, p, c), l) == Ok(InChunk(ps, p, c.(lines := c.lines + [l])))
  {
    var a, b := InChunk(ps, p, c), InChunk(ps, p, c.(lines := c.lines + [l]));
    var patch := p.(chunks := p.chunks + [c]);
    assert a.patches[|ps|] == patch && patch.chunks[|p.chunks|] == c;
    var more := c.(lines := c.lines + [l]);
    assert patch.chunks[|p.chunks| := more] == p.chunks + [more];
    assert a.patches[|ps| := p.(chunks := p.chunks + [more])] == b.patches;
  }

  lemma {:induction false} ParseLines(ps: seq<Patch>, p: Patch, c: Chunk, ls: seq<Line>)
    requires ClearLines(ls) && c.lines == []
    ensures Fits(InChunk(ps, p, c)) && Steps(InChunk(ps, p, c), WriteLines(ls)) == Ok(InChunk(ps, p, c.(lines := ls)))
    decreases |ls|
  {
    hide InChunk, WriteLine, Confusing, OneLine, Step, AddLine;
    var k := |ls| - 1;
    if ls == [] {
      assert c.(lines := ls) == c;
      AddInChunk(ps, p, c, Line(SRC, ""));
    } else {
      ParseLines(ps, p, c, ls[..k]);
      StepsConcat(InChunk(ps, p, c), WriteLines(ls[..k]), [WriteLine(ls[k])]);
      AddInChunk(ps, p, c.(lines := ls[..k]), ls[k]);
      StepWrittenLine(InChunk(ps, p, c.(lines := ls[..k])), ls[k]);
      StepsOne(InChunk(ps, p, c.(lines := ls[..k])), WriteLine(ls[k]));
      assert ls[..k] + [ls[k]] == ls;
    }
  }

  lemma StepsOne(s: ParserState, line: string)
    requires Fits(s) && Step(s, line).Ok?
    ensures Steps(s, [line]) == Step(s, line)
  {
    assert [line][1..] == [];
  }

  /** After the two file headers, and after each chunk. */
  function InPatch(ps: seq<Patch>, p: Patch): ParserState {
    ParserState(ps + [p], LastChunk(ps + [p]))
  }

  lemma NoHeader(c: Chunk)
    ensures MatchRest("--- ", Header(c)) == None && MatchRest("+++ ", Header(c)) == None
  {
    hide ToDecimal;
    OtherStart("--- ", Header(c));
    OtherStart("+++ ", Header(c));
  }

  lemma ParseHeader(ps: seq<Patch>, p: Patch, c: Chunk)
    ensures Fits(InPatch(ps, p))
    ensures Steps(InPatch(ps, p), [Header(c)]) == Ok(InChunk(ps, p, c.(lines := [])))
  {
    MatchHeader(c);
    NoHeader(c);
    DecimalRoundTrip(c.srcPos);
    DecimalRoundTrip(c.dstPos);
    hide MatchRest, MatchChunk, ToDecimal, Header, LastChunk;
    var s := InPatch(ps, p);
    assert s.patches[|ps|] == p;
    assert s.patches[|ps| := p.(chunks := p.chunks + [c.(lines := [])])] == InChunk(ps, p, c.(lines := [])).patches;
    StepsOne(s, Header(c));
  }

  lemma ChunkEnds(ps: seq<Patch>, p: Patch, c: Chunk)
    ensures InChunk(ps, p, c) == InPatch(ps, p.(chunks := p.chunks + [c]))
  {
  }

  lemma {:induction false} ParseChunks(ps: seq<Patch>, p: Patch, cs: seq<Chunk>)
    requires ClearChunks(cs) && p.chunks == []
    ensures Fits(InPatch(ps, p)) && Steps(InPatch(ps, p), WriteChunks(cs)) == Ok(InPatch(ps, p.(chunks := cs)))
    decreases |cs|
  {
    hide InChunk, InPatch, Header, WriteLines, Step, ClearLines;
    var k := |cs| - 1;
    if cs == [] {
      ParseHeader(ps, p, Chunk(0, 0, []));
      assert p.(chunks := cs) == p;
    } else {
      var s := InPatch(ps, p);
      var q := p.(chunks := cs[..k]);
      var c := cs[k];
      ParseChunks(ps, p, cs[..k]);
      ParseHeader(ps, q, c);
      StepsConcat(s, WriteChunks(cs[..k]), [Header(c)]);
      ParseLines(ps, q, c.(lines := []), c.lines);
      StepsConcat(s, WriteChunks(cs[..k]) + [Header(c)], WriteLines(c.lines));
      assert c.(lines := []).(lines := c.lines) == c;
      ChunkEnds(ps, q, c);
      assert cs[..k] + [c] == cs;
      assert q.(chunks := q.chunks + [c]) == p.(chunks := cs);
    }
  }

  lemma ParseFileHeaders(ps: seq<Patch>, p: Patch)
    requires OneLine(p.src) && OneLine(p.dst)
    ensures var s, files := ParserState(ps, LastChunk(ps)), ["--- " + p.src + "\n", "+++ " + p.dst + "\n"];
      Steps(s, files) == Ok(InPatch(ps, p.(chunks := [])))
  {
    var s := ParserState(ps, LastChunk(ps));
    var a, b := "--- " + p.src + "\n", "+++ " + p.dst + "\n";
    MatchWritten("--- ", p.src);
    MatchWritten("+++ ", p.dst);
    OtherStart("--- ", b);
    NoMatch("--- ", b);
    hide MatchRest, MatchChunk, LastChunk;
    var s1 := ParserState(ps + [Patch(p.src, "", [])], LastChunk(ps));
    assert Step(s, a) == Ok(s1);
    assert s1.patches[|ps|] == Patch(p.src, "", []);
    var s2 := ParserState(ps + [Patch(p.src, p.dst, [])], LastChunk(ps));
    assert s1.patches[|ps| := Patch(p.src, p.dst, [])] == s2.patches;
    assert Step(s1, b) == Ok(s2);
    StepsOne(s1, b);
    assert [a, b][1..] == [b];
    SameLastChunk(ps, p.(chunks := []));
  }

  lemma SameLastChunk(ps: seq<Patch>, p: Patch)
    requires p.chunks == []
    ensures LastChunk(ps + [p]) == LastChunk(ps)
  {
    assert (ps + [p])[..|ps|] == ps;
  }

  lemma {:induction false} ParseWritten(ps: seq<Patch>)
    requires ClearPatches(ps)
    ensures Steps(START, Write(ps)) == Ok(ParserState(ps, LastChunk(ps)))
    decreases |ps|
  {
    hide InPatch, Step, LastChunk, ClearChunks, WriteChunks;
    var k := |ps| - 1;
    if ps == [] {
      assert LastChunk([]) == None by { NoLastChunk(); }
    } else {
      var p, q := ps[k], ps[k].(chunks := []);
      ParseWritten(ps[..k]);
      var files := ["--- " + p.src + "\n", "+++ " + p.dst + "\n"];
      ParseFileHeaders(ps[..k], p);
      StepsConcat(START, Write(ps[..k]), files);
      ParseChunks(ps[..k], q, p.chunks);
      StepsConcat(START, Write(ps[..k]) + files, WriteChunks(p.chunks));
      assert Write(ps) == Write(ps[..k]) + files + WriteChunks(p.chunks);
      assert q.(chunks := p.chunks) == p;
      Whole(ps);
    }
  }

  lemma NoLastChunk()
    ensures LastChunk([]) == None
  {
  }

  lemma Whole(ps: seq<Patch>)
    requires ps != []
    ensures InPatch(ps[..|ps|-1], ps[|ps|-1]) == ParserState(ps, LastChunk(ps))
  {
    hide LastChunk;
    var front, p := ps[..|ps|-1], ps[|ps|-1];
    assert front + [p] == ps;
    assert InPatch(front, p) == ParserState(front + [p], LastChunk(front + [p]));
  }

  /** Writing and parsing again gives back every patch set without confusing lines. */
  lemma RoundTrip(ps: seq<Patch>)
    requires ClearPatches(ps)
    ensures Parse(Write(ps)) == Ok(ps)
  {
    ParseWritten(ps);
  }

  // ---------------------------------------------------------------- confusing lines do not come back

  /** The strings of a patch set are single lines, as every string that parse finds is. */
  predicate OneLiners(ps: seq<Patch>) {
    forall i :: 0 <= i < |ps| ==> OneLine(ps[i].src) && OneLine(ps[i].dst) && ChunksOneLine(ps[i].chunks)
  }

  predicate ChunksOneLine(cs: seq<Chunk>) {
    forall j :: 0 <= j < |cs| ==> LinesOneLine(cs[j].lines)
  }

  predicate LinesOneLine(ls: seq<Line>) {
    forall k :: 0 <= k < |ls| ==> OneLine(ls[k].text)
  }

  /** Lines of the given kind that would be mistaken for a header. */
  function ConfusingLines(ls: seq<Line>, kind: Kind): nat {
    if ls == [] then 0 else ConfusingLines(ls[..|ls|-1], kind) + B(ls[|ls|-1].kind == kind && Confusing(ls[|ls|-1]))
  }

  function ConfusingChunks(cs: seq<Chunk>, kind: Kind): nat {
    if cs == [] then 0 else ConfusingChunks(cs[..|cs|-1], kind) + ConfusingLines(cs[|cs|-1].lines, kind)
  }

  function ConfusingPatches(ps: seq<Patch>, kind: Kind): nat {
    if ps == [] then 0 else ConfusingPatches(ps[..|ps|-1], kind) + ConfusingChunks(ps[|ps|-1].chunks, kind)
  }

  function ChunkTotal(cs: seq<Chunk>): nat {
    if cs == [] then 0 else ChunkTotal(cs[..|cs|-1]) + |cs[|cs|-1].lines|
  }

  /** All lines of all chunks. */
  function LineTotal(ps: seq<Patch>): nat {
    if ps == [] then 0 else LineTotal(ps[..|ps|-1]) + ChunkTotal(ps[|ps|-1].chunks)
  }

  predicate IsFileHeader(line: string) {
    MatchRest("--- ", line).Some?
  }

  predicate IsHeader(line: string) {
    IsFileHeader(line) || MatchRest("+++ ", line).Some? || MatchChunk(line).Some?
  }

  function FileHeaders(lines: seq<string>): nat {
    if lines == [] then 0 else FileHeaders(lines[..|lines|-1]) + B(IsFileHeader(lines[|lines|-1]))
  }

  function BodyLines(lines: seq<string>): nat {
    if lines == [] then 0 else BodyLines(lines[..|lines|-1]) + B(!IsHeader(lines[|lines|-1]))
  }

  lemma {:induction false} ChunkTotalUpdate(cs: seq<Chunk>, j: nat, c: Chunk)
    requires j < |cs|
    ensures ChunkTotal(cs[j := c]) == ChunkTotal(cs) + |c.lines| - |cs[j].lines|
    decreases |cs|
  {
    var k := |cs| - 1;
    if j == k {
      assert cs[j := c][..k] == cs[..k];
    } else {
      ChunkTotalUpdate(cs[..k], j, c);
      assert cs[j := c][..k] == cs[..k][j := c];
    }
  }

  lemma {:induction false} LineTotalUpdate(ps: seq<Patch>, i: nat, p: Patch)
    requires i < |ps|
    ensures LineTotal(ps[i := p]) == LineTotal(ps) + ChunkTotal(p.chunks) - ChunkTotal(ps[i].chunks)
    decreases |ps|
  {
    hide ChunkTotal;
    var k := |ps| - 1;
    if i == k {
      assert ps[i := p][..k] == ps[..k];
    } else {
      LineTotalUpdate(ps[..k], i, p);
      assert ps[i := p][..k] == ps[..k][i := p];
    }
  }

  lemma LineTotalMore(ps: seq<Patch>, p: Patch)
    ensures LineTotal(ps + [p]) == LineTotal(ps) + ChunkTotal(p.chunks)
  {
    assert (ps + [p])[..|ps|] == ps;
  }

  lemma ChunkTotalMore(cs: seq<Chunk>, c: Chunk)
    ensures ChunkTotal(cs + [c]) == ChunkTotal(cs) + |c.lines|
  {
    assert (cs + [c])[..|cs|] == cs;
  }

  lemma AddLineCounts(s: ParserState, l: Line)
    requires Fits(s) && AddLine(s, l).Ok?
    ensures |AddLine(s, l).value.patches| == |s.patches|
    ensures LineTotal(AddLine(s, l).value.patches) == LineTotal(s.patches) + 1
  {
    hide LineTotal, ChunkTotal;
    var (i, j) := s.at.value;
    var patch := s.patches[i];
    var chunk := patch.chunks[j];
    var chunk' := chunk.(lines := chunk.lines + [l]);
    ChunkTotalUpdate(patch.chunks, j, chunk');
    LineTotalUpdate(s.patches, i, patch.(chunks := patch.chunks[j := chunk']));
  }

  /** A file header makes a patch, a line that is no header makes a line, and nothing else makes either. */
  lemma StepCounts(s: ParserState, line: string)
    requires Fits(s) && Step(s, line).Ok?
    ensures |Step(s, line).value.patches| == |s.patches| + B(IsFileHeader(line))
    ensures LineTotal(Step(s, line).value.patches) == LineTotal(s.patches) + B(!IsHeader(line))
  {
    hide LineTotal, ChunkTotal, AddLine, MatchRest, MatchChunk;
    var n := |s.patches|;
    if IsFileHeader(line) {
      var p := Patch(MatchRest("--- ", line).value, "", []);
      LineTotalMore(s.patches, p);
      NoChunks();
    } else if MatchRest("+++ ", line).Some? {
      LineTotalUpdate(s.patches, n - 1, s.patches[n-1].(dst := MatchRest("+++ ", line).value));
    } else if MatchChunk(line).Some? {
      var m, patch := MatchChunk(line).value, s.patches[n-1];
      var c := Chunk(FromDecimal(m.0), FromDecimal(m.2), []);
      ChunkTotalMore(patch.chunks, c);
      LineTotalUpdate(s.patches, n - 1, patch.(chunks := patch.chunks + [c]));
    } else {
      var kind := if MatchRest("-", line).Some? then SRC else if MatchRest("+", line).Some? then DST else BOTH;
      var m := MatchRest(match kind case SRC => "-" case DST => "+" case BOTH => " ", line);
      AddLineCounts(s, Line(kind, m.value));
    }
  }

  lemma NoChunks()
    ensures ChunkTotal([]) == 0
  {
  }

  lemma {:induction false} CountsConcat(a: seq<string>, b: seq<string>)
    ensures FileHeaders(a + b) == FileHeaders(a) + FileHeaders(b)
    ensures BodyLines(a + b) == BodyLines(a) + BodyLines(b)
    decreases |b|
  {
    hide IsFileHeader, IsHeader;
    if b == [] {
      assert a + b == a;
    } else {
      var k := |b| - 1;
      CountsConcat(a, b[..k]);
      assert (a + b)[..|a|+k] == a + b[..k];
    }
  }

  lemma OneCount(line: string)
    ensures FileHeaders([line]) == B(IsFileHeader(line)) && BodyLines([line]) == B(!IsHeader(line))
  {
    assert [line][..0] == [];
  }

  lemma {:induction false} StepsCount(s: ParserState, lines: seq<string>)
    requires Fits(s) && Steps(s, lines).Ok?
    ensures |Steps(s, lines).value.patches| == |s.patches| + FileHeaders(lines)
    ensures LineTotal(Steps(s, lines).value.patches) == LineTotal(s.patches) + BodyLines(lines)
    decreases |lines|
  {
    hide Step, LineTotal, IsFileHeader, IsHeader;
    if lines != [] {
      StepCounts(s, lines[0]);
      StepsCount(Step(s, lines[0]).value, lines[1..]);
      assert lines == [lines[0]] + lines[1..];
      CountsConcat([lines[0]], lines[1..]);
      OneCount(lines[0]);
    }
  }

  lemma LineCounts(l: Line)
    requires OneLine(l.text)
    ensures IsFileHeader(WriteLine(l)) <==> l.kind == SRC && Confusing(l)
    ensures IsHeader(WriteLine(l)) <==> Confusing(l)
  {
    hide MatchRest, MatchChunk, WriteLine;
    HeaderMatches(l);
    LineMatches(l);
  }

  lemma {:induction false} LinesCount(ls: seq<Line>)
    requires LinesOneLine(ls)
    ensures FileHeaders(WriteLines(ls)) == ConfusingLines(ls, SRC)
    ensures BodyLines(WriteLines(ls)) == |ls| - ConfusingLines(ls, SRC) - ConfusingLines(ls, DST)
    decreases |ls|
  {
    hide WriteLine, IsFileHeader, IsHeader, OneLine;
    if ls != [] {
      var k := |ls| - 1;
      LinesCount(ls[..k]);
      LineCounts(ls[k]);
      CountsConcat(WriteLines(ls[..k]), [WriteLine(ls[k])]);
      OneCount(WriteLine(ls[k]));
    }
  }

  lemma HeaderCounts(c: Chunk)
    ensures !IsFileHeader(Header(c)) && IsHeader(Header(c))
  {
    MatchHeader(c);
    NoHeader(c);
  }

  lemma {:induction false} ChunksCount(cs: seq<Chunk>)
    requires ChunksOneLine(cs)
    ensures FileHeaders(WriteChunks(cs)) == ConfusingChunks(cs, SRC)
    ensures BodyLines(WriteChunks(cs)) == ChunkTotal(cs) - ConfusingChunks(cs, SRC) - ConfusingChunks(cs, DST)
    decreases |cs|
  {
    hide WriteLines, Header, IsFileHeader, IsHeader, LinesOneLine, ConfusingLines;
    if cs != [] {
      var k := |cs| - 1;
      ChunksCount(cs[..k]);
      HeaderCounts(cs[k]);
      OneCount(Header(cs[k]));
      LinesCount(cs[k].lines);
      CountsConcat(WriteChunks(cs[..k]), [Header(cs[k])]);
      CountsConcat(WriteChunks(cs[..k]) + [Header(cs[k])], WriteLines(cs[k].lines));
    }
  }

  lemma FilesCount(p: Patch)
    requires OneLine(p.src) && OneLine(p.dst)
    ensures FileHeaders(["--- " + p.src + "\n", "+++ " + p.dst + "\n"]) == 1
    ensures BodyLines(["--- " + p.src + "\n", "+++ " + p.dst + "\n"]) == 0
  {
    var a, b := "--- " + p.src + "\n", "+++ " + p.dst + "\n";
    MatchWritten("--- ", p.src);
    MatchWritten("+++ ", p.dst);
    OtherStart("--- ", b);
    NoMatch("--- ", b);
    hide MatchRest, MatchChunk;
    assert [a, b] == [a] + [b];
    CountsConcat([a], [b]);
    OneCount(a);
    OneCount(b);
  }

  lemma {:induction false} WriteCounts(ps: seq<Patch>)
    requires OneLiners(ps)
    ensures FileHeaders(Write(ps)) == |ps| + ConfusingPatches(ps, SRC)
    ensures BodyLines(Write(ps)) == LineTotal(ps) - ConfusingPatches(ps, SRC) - ConfusingPatches(ps, DST)
    decreases |ps|
  {
    hide WriteChunks, IsFileHeader, IsHeader, ChunksOneLine, ConfusingChunks, ChunkTotal, OneLine;
    if ps != [] {
      var k := |ps| - 1;
      var files := ["--- " + ps[k].src + "\n", "+++ " + ps[k].dst + "\n"];
      WriteCounts(ps[..k]);
      FilesCount(ps[k]);
      ChunksCount(ps[k].chunks);
      CountsConcat(files, WriteChunks(ps[k].chunks));
      CountsConcat(Write(ps[..k]), files + WriteChunks(ps[k].chunks));
    }
  }

  lemma {:induction false} ClearLinesIff(ls: seq<Line>)
    requires LinesOneLine(ls)
    ensures ClearLines(ls) <==> ConfusingLines(ls, SRC) + ConfusingLines(ls, DST) == 0
    decreases |ls|
  {
    hide OneLine;
    if ls != [] {
      ClearLinesIff(ls[..|ls|-1]);
    }
  }

  lemma {:induction false} ClearChunksIff(cs: seq<Chunk>)
    requires ChunksOneLine(cs)
    ensures ClearChunks(cs) <==> ConfusingChunks(cs, SRC) + ConfusingChunks(cs, DST) == 0
    decreases |cs|
  {
    hide LinesOneLine, ClearLines, ConfusingLines;
    if cs != [] {
      ClearChunksIff(cs[..|cs|-1]);
      ClearLinesIff(cs[|cs|-1].lines);
    }
  }

  lemma {:induction false} ClearPatchesIff(ps: seq<Patch>)
    requires OneLiners(ps)
    ensures ClearPatches(ps) <==> ConfusingPatches(ps, SRC) + ConfusingPatches(ps, DST) == 0
    decreases |ps|
  {
    hide ChunksOneLine, ClearChunks, ConfusingChunks, OneLine;
    if ps != [] {
      ClearPatchesIff(ps[..|ps|-1]);
      ClearChunksIff(ps[|ps|-1].chunks);
    }
  }

  /** A patch set survives writing and parsing exactly when none of its lines is confusing. */
  lemma RoundTripIff(ps: seq<Patch>)
    requires OneLiners(ps)
    ensures Parse(Write(ps)) == Ok(ps) <==> ClearPatches(ps)
  {
    if ClearPatches(ps) {
      RoundTrip(ps);
    }
    if Parse(Write(ps)) == Ok(ps) {
      hide ClearPatches, OneLiners, Write;
      StepsCount(START, Write(ps));
      WriteCounts(ps);
      ClearPatchesIff(ps);
    }
  }

  // ---------------------------------------------------------------- what parse finds is never confusing

  lemma MatchIsOneLine(prefix: string, line: string)
    ensures MatchRest(prefix, line).Some? ==> OneLine(MatchRest(prefix, line).value)
  {
  }

  /** If the text after a sign goes on like a header, the header expression matches the line. */
  lemma LongerMatch(sign: string, more: string, line: string)
    requires MatchRest(sign, line).Some? && OneLine(more)
    ensures more <= MatchRest(sign, line).value ==> MatchRest(sign + more, line).Some?
  {
    var text := MatchRest(sign, line).value;
    if more <= text {
      var rest := line[|sign|..];
      assert rest == more + rest[|more|..];
      assert line == sign + more + rest[|more|..];
      assert line[|sign + more|..] == rest[|more|..];
      assert ChopNewline(rest[|more|..]) == text[|more|..];
    }
  }

  /** A line that starts with "--- " has been taken for a header before it can be a removed line. */
  lemma FoundLineIsClear(kind: Kind, line: string)
    requires kind != BOTH && MatchRest(if kind == SRC then "--- " else "+++ ", line) == None
    requires MatchRest(if kind == SRC then "-" else "+", line).Some?
    ensures !Confusing(Line(kind, MatchRest(if kind == SRC then "-" else "+", line).value))
  {
    hide MatchRest;
    assert "-" + "-- " == "--- " && "+" + "++ " == "+++ ";
    LongerMatch(if kind == SRC then "-" else "+", if kind == SRC then "-- " else "++ ", line);
  }

  lemma AddLineKeepsClear(s: ParserState, l: Line)
    requires Fits(s) && ClearPatches(s.patches) && AddLine(s, l).Ok? && OneLine(l.text) && !Confusing(l)
    ensures ClearPatches(AddLine(s, l).value.patches)
  {
    hide Confusing, OneLine;
    var (i, j) := s.at.value;
    var patch := s.patches[i];
    var chunk := patch.chunks[j];
    var chunk' := chunk.(lines := chunk.lines + [l]);
    assert ClearLines(chunk'.lines);
    assert ClearChunks(patch.chunks[j := chunk']);
  }

  lemma StepKeepsClear(s: ParserState, line: string)
    requires Fits(s) && ClearPatches(s.patches) && Step(s, line).Ok?
    ensures ClearPatches(Step(s, line).value.patches)
  {
    MatchIsOneLine("--- ", line);
    MatchIsOneLine("+++ ", line);
    MatchIsOneLine("-", line);
    MatchIsOneLine("+", line);
    MatchIsOneLine(" ", line);
    hide MatchRest, MatchChunk, AddLine, OneLine, ClearLines, Confusing;
    assert OneLine("") by { NothingIsOneLine(); }
    if MatchRest("--- ", line) == None && MatchRest("+++ ", line) == None && MatchChunk(line) == None {
      var kind := if MatchRest("-", line).Some? then SRC else if MatchRest("+", line).Some? then DST else BOTH;
      var m := MatchRest(match kind case SRC => "-" case DST => "+" case BOTH => " ", line);
      if kind != BOTH {
        FoundLineIsClear(kind, line);
      } else {
        ContextIsClear(m.value);
      }
      AddLineKeepsClear(s, Line(kind, m.value));
    } else if MatchRest("--- ", line) == None && MatchRest("+++ ", line) == None {
      NothingIsOneLine();
    }
  }

  lemma NothingIsOneLine()
    ensures OneLine("") && ClearLines([])
  {
  }

  lemma ContextIsClear(text: string)
    ensures !Confusing(Line(BOTH, text))
  {
  }

  lemma {:induction false} StepsKeepClear(s: ParserState, lines: seq<string>)
    requires Fits(s) && ClearPatches(s.patches) && Steps(s, lines).Ok?
    ensures ClearPatches(Steps(s, lines).value.patches)
    decreases |lines|
  {
    hide Step, ClearPatches;
    if lines != [] {
      StepKeepsClear(s, lines[0]);
      StepsKeepClear(Step(s, lines[0]).value, lines[1..]);
    }
  }

  /** On every accepted input, parsing, writing and parsing again gives what the first parse gave. */
  lemma ParseWriteParse(lines: seq<string>)
    requires Parse(lines).Ok?
    ensures Parse(Write(Parse(lines).value)) == Parse(lines)
  {
    StepsKeepClear(START, lines);
    RoundTrip(Parse(lines).value);
  }
}
