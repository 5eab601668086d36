/**
 The patch objects of check-style.py, which parse_patchset fills and write prints. Module Patchset says
 what patch set they show; here the objects are built and read.
 */
module CheckStyle {
  import opened Basics
  import opened Patchset

  class PatchChunkLine {
    /** None until a setter is called. */
    var kind: Option<Kind>
    var line: string

    constructor ()
      ensures kind == None && line == ""
    {
      kind, line := None, "";
    }

    method SetSrc(line: string)
      modifies this
      ensures ShowsLine(this, Line(SRC, line))
    {
      kind, this.line := Some(SRC), line;
    }

    method SetDst(line: string)
      modifies this
      ensures ShowsLine(this, Line(DST, line))
    {
      kind, this.line := Some(DST), line;
    }

    method SetBoth(line: string)
      modifies this
      ensures ShowsLine(this, Line(BOTH, line))
    {
      kind, this.line := Some(BOTH), line;
    }

    predicate IsSrc()
      reads this
    {
      kind == Some(SRC) || kind == Some(BOTH)
    }

    predicate IsDst()
      reads this
    {
      kind == Some(DST) || kind == Some(BOTH)
    }

    /** None stands for the exception about a line without a type. */
    method Write(f0: seq<string>) returns (f: Option<seq<string>>)
      ensures f == None <==> kind == None
      ensures forall v :: ShowsLine(this, v) ==> f == Some(f0 + [WriteLine(v)])
    {
      match kind
      case Some(SRC) => f := Some(f0 + ["-" + line + "\n"]);
      case Some(DST) => f := Some(f0 + ["+" + line + "\n"]);
      case Some(BOTH) => f := Some(f0 + [" " + line + "\n"]);
      case None => f := None;
    }
  }

  class PatchChunk {
    var srcPos: nat
    var dstPos: nat
    var lines: seq<PatchChunkLine>

    constructor (srcPos: nat, dstPos: nat)
      ensures ShowsChunk(this, Chunk(srcPos, dstPos, [])) && lines == []
    {
      this.srcPos, this.dstPos, lines := srcPos, dstPos, [];
    }

    method AddLine(line: PatchChunkLine)
      modifies this`lines
      ensures lines == old(lines) + [line]
    {
      lines := lines + [line];
    }

    method Src() returns (src: seq<PatchChunkLine>)
      ensures forall v :: ShowsChunk(this, v) ==> ShowsLines(src, SrcSide(v.lines))
    {
      src := [];
      for i := 0 to |lines|
        invariant forall v :: ShowsChunk(this, v) ==> ShowsLines(src, SrcSide(v.lines[..i]))
      {
        ghost var before := src;
        if lines[i].IsSrc() {
          src := src + [lines[i]];
        }
        forall v | ShowsChunk(this, v)
          ensures ShowsLines(src, SrcSide(v.lines[..i+1]))
        {
          assert v.lines[..i+1][..i] == v.lines[..i];
          assert ShowsLine(lines[i], v.lines[i]) && ShowsLines(before, SrcSide(v.lines[..i]));
        }
      }
      assert forall v: Chunk :: |v.lines| == |lines| ==> v.lines[..|lines|] == v.lines;
    }

    method Dst() returns (dst: seq<PatchChunkLine>)
      ensures forall v :: ShowsChunk(this, v) ==> ShowsLines(dst, DstSide(v.lines))
    {
      dst := [];
      for i := 0 to |lines|
        invariant forall v :: ShowsChunk(this, v) ==> ShowsLines(dst, DstSide(v.lines[..i]))
      {
        ghost var before := dst;
        if lines[i].IsDst() {
          dst := dst + [lines[i]];
        }
        forall v | ShowsChunk(this, v)
          ensures ShowsLines(dst, DstSide(v.lines[..i+1]))
        {
          assert v.lines[..i+1][..i] == v.lines[..i];
          assert ShowsLine(lines[i], v.lines[i]) && ShowsLines(before, DstSide(v.lines[..i]));
        }
      }
      assert forall v: Chunk :: |v.lines| == |lines| ==> v.lines[..|lines|] == v.lines;
    }

    /** false stands for the exception about a line without a type, which ends the writing. */
    method Write(f0: seq<string>) returns (ok: bool, f: seq<string>)
      ensures ok <==> Typed(this)
      ensures forall v :: ShowsChunk(this, v) ==> ok && f == f0 + [Header(v)] + WriteLines(v.lines)
    {
      hide WriteLine, ToDecimal, SrcSide, DstSide;
      var src := Src();
      var dst := Dst();
      var header := "@@ -" + ToDecimal(srcPos) + "," + ToDecimal(|src|) + " +" + ToDecimal(dstPos) + ","
                    + ToDecimal(|dst|) + " @@" + "\n";
      forall v | ShowsChunk(this, v)
        ensures header == Header(v) && Typed(this)
      {
        assert |src| == |SrcSide(v.lines)| && |dst| == |DstSide(v.lines)|;
        ShownIsTyped(this, v);
      }
      hide Header, ShowsChunk;
      f := f0 + [header];
      for k := 0 to |lines|
        invariant forall i :: 0 <= i < k ==> lines[i].kind.Some?
        invariant forall v :: ShowsChunk(this, v) ==> k <= |v.lines| && f == f0 + [header] + WriteLines(v.lines[..k])
      {
        ghost var before := f;
        var g := lines[k].Write(f);
        if g == None {
          return false, f;
        }
        f := g.value;
        forall v | ShowsChunk(this, v)
          ensures k < |v.lines| && f == f0 + [header] + WriteLines(v.lines[..k+1])
        {
          ShownLine(this, v, k);
          assert v.lines[..k+1][..k] == v.lines[..k];
        }
      }
      forall v | ShowsChunk(this, v)
        ensures v.lines[..|lines|] == v.lines
      {
        ShownLength(this, v);
      }
      return true, f;
    }
  }

  class Patch {
    var src: string
    var dst: string
    var chunks: seq<PatchChunk>

    constructor ()
      ensures src == "" && dst == "" && chunks == []
    {
      src, dst, chunks := "", "", [];
    }

    method AddChunk(chunk: PatchChunk)
      modifies this`chunks
      ensures chunks == old(chunks) + [chunk]
    {
      chunks := chunks + [chunk];
    }

    method SetSrc(src: string)
      modifies this`src
      ensures this.src == src
    {
      this.src := src;
    }

    method SetDst(dst: string)
      modifies this`dst
      ensures this.dst == dst
    {
      this.dst := dst;
    }

    method Write(f0: seq<string>) returns (ok: bool, f: seq<string>)
      ensures ok <==> AllTyped(this)
      ensures forall v :: ShowsPatch(this, v) ==> ok && f == f0 + WritePatch(v)
    {
      hide Header, WriteLines, ShowsChunk, Typed;
      f := f0 + ["--- " + src + "\n"];
      f := f + ["+++ " + dst + "\n"];
      ghost var start := f;
      for j := 0 to |chunks|
        invariant forall i :: 0 <= i < j ==> Typed(chunks[i])
        invariant forall v :: ShowsPatch(this, v) ==> j <= |v.chunks| && f == start + WriteChunks(v.chunks[..j])
      {
        var ok1;
        ghost var before := f;
        ok1, f := chunks[j].Write(f);
        forall v | ShowsPatch(this, v)
          ensures ok1 && j < |v.chunks| && f == start + WriteChunks(v.chunks[..j+1])
        {
          WriteChunksMore(v.chunks, j);
          assert before == start + WriteChunks(v.chunks[..j]);
        }
        if !ok1 {
          return false, f;
        }
      }
      forall v | ShowsPatch(this, v)
        ensures f == f0 + WritePatch(v)
      {
        assert v.chunks[..|chunks|] == v.chunks;
      }
      return true, f;
    }
  }

  // ---------------------------------------------------------------- the patch set that objects show

  ghost predicate ShowsLine(o: PatchChunkLine, v: Line)
    reads o
  {
    o.kind == Some(v.kind) && o.line == v.text
  }

  ghost predicate ShowsLines(os: seq<PatchChunkLine>, vs: seq<Line>)
    reads os
  {
    |os| == |vs| && forall k :: 0 <= k < |os| ==> ShowsLine(os[k], vs[k])
  }

  ghost predicate ShowsChunk(o: PatchChunk, v: Chunk)
    reads o, o.lines
  {
    o.srcPos == v.srcPos && o.dstPos == v.dstPos && ShowsLines(o.lines, v.lines)
  }

  /** A setter has been called on every line. */
  ghost predicate Typed(o: PatchChunk)
    reads o, o.lines
  {
    forall k :: 0 <= k < |o.lines| ==> o.lines[k].kind.Some?
  }

  ghost predicate AllTyped(o: Patch)
    reads o, o.chunks, LinesOf(o)
  {
    forall j :: 0 <= j < |o.chunks| ==> Typed(o.chunks[j])
  }

  lemma ShownIsTyped(o: PatchChunk, v: Chunk)
    requires ShowsChunk(o, v)
    ensures Typed(o)
  {
    assert forall k :: 0 <= k < |o.lines| ==> ShowsLine(o.lines[k], v.lines[k]);
  }

  lemma ShownLine(o: PatchChunk, v: Chunk, k: nat)
    requires ShowsChunk(o, v) && k < |o.lines|
    ensures k < |v.lines| && ShowsLine(o.lines[k], v.lines[k])
  {
  }

  lemma ShownLength(o: PatchChunk, v: Chunk)
    requires ShowsChunk(o, v)
    ensures |v.lines| == |o.lines| && v.lines[..|o.lines|] == v.lines
  {
  }

  ghost function LinesOf(o: Patch): set<PatchChunkLine>
    reads o, o.chunks
  {
    set j, k | 0 <= j < |o.chunks| && 0 <= k < |o.chunks[j].lines| :: o.chunks[j].lines[k]
  }

  ghost function ChunksOf(os: seq<Patch>): set<PatchChunk>
    reads os
  {
    set i, j | 0 <= i < |os| && 0 <= j < |os[i].chunks| :: os[i].chunks[j]
  }

  ghost function LinesOfAll(os: seq<Patch>): set<PatchChunkLine>
    reads os, ChunksOf(os)
  {
    set i, l | 0 <= i < |os| && l in LinesOf(os[i]) :: l
  }

  ghost predicate ShowsPatch(o: Patch, v: Patchset.Patch)
    reads o, o.chunks, LinesOf(o)
  {
    && o.src == v.src && o.dst == v.dst && |o.chunks| == |v.chunks|
    && forall j :: 0 <= j < |o.chunks| ==> ShowsChunk(o.chunks[j], v.chunks[j])
  }

  ghost predicate Shows(os: seq<Patch>, vs: seq<Patchset.Patch>)
    reads os, ChunksOf(os), LinesOfAll(os)
  {
    |os| == |vs| && forall i :: 0 <= i < |os| ==> ShowsPatch(os[i], vs[i])
  }

  /** No patch is listed twice, and no chunk is in two places. */
  ghost predicate Separate(os: seq<Patch>)
    reads os
  {
    && (forall i, k :: 0 <= i < k < |os| ==> os[i] != os[k])
    && forall i, j, k, l :: 0 <= i < |os| && 0 <= k < |os| && 0 <= j < |os[i].chunks| && 0 <= l < |os[k].chunks|
         ==> (os[i].chunks[j] == os[k].chunks[l] ==> i == k && j == l)
  }

  /** current_patch and current_chunk are the objects that the parser state names. */
  ghost predicate Current(s: ParserState, patchset: seq<Patch>, currentPatch: Patch?, currentChunk: PatchChunk?)
    reads patchset
  {
    && |patchset| == |s.patches|
    && currentPatch == (if patchset == [] then null else patchset[|patchset|-1])
    && (s.at == None ==> currentChunk == null)
    && (s.at.Some? ==>
          var (i, j) := s.at.value;
          i < |patchset| && j < |patchset[i].chunks| && currentChunk == patchset[i].chunks[j])
  }

  /** What parse_patchset keeps: the objects show the state of the parser. */
  ghost predicate Mirrors(s: ParserState, patchset: seq<Patch>, currentPatch: Patch?, currentChunk: PatchChunk?)
    reads patchset, ChunksOf(patchset), LinesOfAll(patchset)
  {
    Fits(s) && Shows(patchset, s.patches) && Separate(patchset) && Current(s, patchset, currentPatch, currentChunk)
  }

  lemma WriteChunksMore(cs: seq<Chunk>, j: nat)
    requires j < |cs|
    ensures WriteChunks(cs[..j+1]) == WriteChunks(cs[..j]) + ([Header(cs[j])] + WriteLines(cs[j].lines))
  {
    hide Header, WriteLines;
    assert cs[..j+1][..j] == cs[..j];
  }

  lemma WriteMore(ps: seq<Patchset.Patch>, i: nat)
    requires i < |ps|
    ensures Write(ps[..i+1]) == Write(ps[..i]) + WritePatch(ps[i])
  {
    hide WritePatch;
    assert ps[..i+1][..i] == ps[..i];
  }

  // ---------------------------------------------------------------- parse_patchset

  /** Lines 231-235. */
  method StartPatch(patchset0: seq<Patch>, ghost s: ParserState, ghost currentPatch0: Patch?, currentChunk: PatchChunk?,
                    src: string)
    returns (patchset: seq<Patch>, currentPatch: Patch)
    requires Mirrors(s, patchset0, currentPatch0, currentChunk)
    ensures fresh(currentPatch) && patchset == patchset0 + [currentPatch] && currentPatch.chunks == []
    ensures Mirrors(s.(patches := s.patches + [Patchset.Patch(src, "", [])]), patchset, currentPatch, currentChunk)
  {
    hide ShowsChunk;
    currentPatch := new Patch();
    patchset := patchset0 + [currentPatch];
    currentPatch.SetSrc(src);
  }

  /** Lines 236-239: current_patch is not None. */
  method NameDst(ghost patchset: seq<Patch>, ghost s: ParserState, currentPatch: Patch, ghost currentChunk: PatchChunk?,
                 dst: string)
    requires Mirrors(s, patchset, currentPatch, currentChunk)
    modifies currentPatch`dst
    ensures Patchset.SetDst(s, dst).Ok?
    ensures Mirrors(Patchset.SetDst(s, dst).value, patchset, currentPatch, currentChunk)
  {
    currentPatch.SetDst(dst);
  }

  lemma NothingYet()
    ensures Mirrors(START, [], null, null)
  {
  }

  /** What a step of the parser does, by the first expression that matches. */
  lemma StepCases(s: ParserState, line: string)
    requires Fits(s)
    ensures Step(s, line) ==
      if MatchRest("--- ", line).Some? then
        Ok(s.(patches := s.patches + [Patchset.Patch(MatchRest("--- ", line).value, "", [])]))
      else if MatchRest("+++ ", line).Some? then Patchset.SetDst(s, MatchRest("+++ ", line).value)
      else if MatchChunk(line).Some? then
        var m := MatchChunk(line).value;
        Patchset.AddChunk(s, Chunk(FromDecimal(m.0), FromDecimal(m.2), []))
      else if LineOf(line).Some? then Patchset.AddLine(s, LineOf(line).value)
      else Unrecognised
  {
    hide MatchRest, MatchChunk;
  }

  /** Lines 242-245: a chunk of the current patch. */
  method StartChunk(ghost patchset: seq<Patch>, ghost s: ParserState, currentPatch: Patch,
                    ghost currentChunk0: PatchChunk?, srcPos: nat, dstPos: nat)
    returns (currentChunk: PatchChunk)
    requires Mirrors(s, patchset, currentPatch, currentChunk0)
    modifies currentPatch`chunks
    ensures fresh(currentChunk) && currentPatch.chunks == old(currentPatch.chunks) + [currentChunk]
    ensures currentChunk.lines == []
    ensures Patchset.AddChunk(s, Chunk(srcPos, dstPos, [])).Ok?
    ensures Mirrors(Patchset.AddChunk(s, Chunk(srcPos, dstPos, [])).value, patchset, currentPatch, currentChunk)
  {
    hide ShowsChunk;
    currentChunk := new PatchChunk(srcPos, dstPos);
    currentPatch.AddChunk(currentChunk);
  }

  /** The line that the three line expressions find. */
  function LineOf(line: string): Option<Line> {
    if MatchRest("-", line).Some? then Some(Line(SRC, MatchRest("-", line).value))
    else if MatchRest("+", line).Some? then Some(Line(DST, MatchRest("+", line).value))
    else if MatchRest(" ", line).Some? then Some(Line(BOTH, MatchRest(" ", line).value))
    else None
  }

  /** Lines 246-264; null stands for no match. */
  method ReadLine(line: string, ghost s: ParserState, ghost patchset: seq<Patch>, ghost currentPatch: Patch?,
                  ghost currentChunk: PatchChunk?)
    returns (l: PatchChunkLine?)
    requires Mirrors(s, patchset, currentPatch, currentChunk)
    ensures Mirrors(s, patchset, currentPatch, currentChunk)
    ensures l == null <==> LineOf(line) == None
    ensures l != null ==> fresh(l) && ShowsLine(l, LineOf(line).value)
  {
    hide MatchRest, ShowsChunk;
    l := new PatchChunkLine();
    var m := MatchRest("-", line);
    if m.Some? {
      l.SetSrc(m.value);
      return;
    }
    m := MatchRest("+", line);
    if m.Some? {
      l.SetDst(m.value);
      return;
    }
    m := MatchRest(" ", line);
    if m.Some? {
      l.SetBoth(m.value);
      return;
    }
    return null;
  }

  /** A line of the current chunk, which need not be in the current patch. */
  method StoreLine(ghost patchset: seq<Patch>, ghost s: ParserState, ghost currentPatch: Patch?,
                   currentChunk: PatchChunk, line: PatchChunkLine, ghost l: Line)
    requires Mirrors(s, patchset, currentPatch, currentChunk) && ShowsLine(line, l)
    modifies currentChunk`lines
    ensures currentChunk.lines == old(currentChunk.lines) + [line]
    ensures Patchset.AddLine(s, l).Ok?
    ensures Mirrors(Patchset.AddLine(s, l).value, patchset, currentPatch, currentChunk)
  {
    currentChunk.AddLine(line);
  }

  /** Lines 221-265. */
  method ParsePatchset(generator: seq<string>) returns (r: Result<seq<Patch>>)
    ensures r.Ok? <==> Parse(generator).Ok?
    ensures r.AttributeError? <==> Parse(generator).AttributeError?
    ensures r.NameError? <==> Parse(generator).NameError?
    ensures r.Ok? ==> Shows(r.value, Parse(generator).value) && Separate(r.value)
    ensures r.Ok? ==> forall p :: p in r.value ==> fresh(p)
  {
    hide Step, MatchRest, MatchChunk, Shows, Separate, FromDecimal;
    var patchset: seq<Patch> := [];
    var currentPatch: Patch? := null;
    var currentChunk: PatchChunk? := null;
    ghost var s := START;
    NothingYet();
    for n := 0 to |generator|
      invariant Mirrors(s, patchset, currentPatch, currentChunk)
      invariant Steps(START, generator) == Steps(s, generator[n..])
      invariant forall p :: p in patchset ==> fresh(p)
      invariant forall i, j :: 0 <= i < |patchset| && 0 <= j < |patchset[i].chunks| ==> fresh(patchset[i].chunks[j])
    {
      assert currentPatch != null ==> currentPatch in patchset;
      assert currentChunk != null ==> fresh(currentChunk);
      var line := generator[n];
      assert generator[n..][0] == line && generator[n..][1..] == generator[n+1..];
      StepCases(s, line);
      var m := MatchRest("--- ", line);
      if m.Some? {
        patchset, currentPatch := StartPatch(patchset, s, currentPatch, currentChunk, m.value);
        s := Step(s, line).value;
        continue;
      }
      m := MatchRest("+++ ", line);
      if m.Some? {
        if currentPatch == null {
          return AttributeError;
        }
        NameDst(patchset, s, currentPatch, currentChunk, m.value);
        s := Step(s, line).value;
        continue;
      }
      var h := MatchChunk(line);
      if h.Some? {
        if currentPatch == null {
          return AttributeError;
        }
        var srcPos, dstPos := FromDecimal(h.value.0), FromDecimal(h.value.2);
        currentChunk := StartChunk(patchset, s, currentPatch, currentChunk, srcPos, dstPos);
        s := Step(s, line).value;
        continue;
      }
      var l := ReadLine(line, s, patchset, currentPatch, currentChunk);
      if l == null {
        return Unrecognised;
      }
      if currentChunk == null {
        return NameError;
      }
      StoreLine(patchset, s, currentPatch, currentChunk, l, LineOf(line).value);
      s := Step(s, line).value;
    }
    assert generator[|generator|..] == [];
    return Ok(patchset);
  }

  /** The patches of a patch set, written one after the other; vs is any patch set. */
  method WritePatchset(patchset: seq<Patch>, ghost vs: seq<Patchset.Patch>) returns (ok: bool, f: seq<string>)
    ensures ok <==> forall i :: 0 <= i < |patchset| ==> AllTyped(patchset[i])
    ensures Shows(patchset, vs) ==> ok && f == Write(vs)
    ensures Shows(patchset, vs) && OneLiners(vs) ==> (Parse(f) == Ok(vs) <==> ClearPatches(vs))
  {
    hide ShowsChunk, WritePatch, Typed, ClearPatches, OneLiners, Parse;
    ghost var shown := Shows(patchset, vs);
    f := [];
    for i := 0 to |patchset|
      invariant forall k :: 0 <= k < i ==> AllTyped(patchset[k])
      invariant shown == Shows(patchset, vs)
      invariant shown ==> f == Write(vs[..i])
    {
      var ok1;
      ok1, f := patchset[i].Write(f);
      if shown {
        assert ShowsPatch(patchset[i], vs[i]);
        WriteMore(vs, i);
      }
      if !ok1 {
        return false, f;
      }
    }
    if shown {
      assert vs[..|patchset|] == vs;
      if OneLiners(vs) {
        RoundTripIff(vs);
      }
    }
    return true, f;
  }
}
