/**
 The patch classes of the style checker as objects updated in place: lines are shared
 between a chunk and the source and destination lists taken from it, and the whitespace
 pass edits them through those lists. Each method is proved against the values it stands for.
 */
module CheckStyle {
  import opened Options
  import opened Sequences
  import PT = PatchText
  import PW = PatchWhitespace

  /** A file being written; its text is the concatenation of the writes. */
  class TextFile {
    var writes: seq<string>

    constructor ()
      ensures writes == []
    {
      writes := [];
    }

    method Write(s: string)
      modifies this
      ensures writes == old(writes) + [s]
    {
      writes := writes + [s];
    }
  }

  class PatchChunkLine {
    var kind: Option<PT.LineKind>
    var line: string
    ghost var home: (nat, nat, nat)  // patch, chunk and line number

    constructor ()
      ensures kind == None && line == ""
    {
      kind, line := None, "";
    }

    method Set(kind: PT.LineKind, line: string)
      modifies this`kind, this`line
      ensures this.kind == Some(kind) && this.line == line
    {
      this.kind := Some(kind);
      this.line := line;
    }

    method AppendToLine(s: string)
      modifies this`line
      ensures line == old(line) + s
    {
      line := line + s;
    }

    predicate IsSrc()
      reads this
    {
      kind == Some(PT.Src) || kind == Some(PT.Both)
    }

    predicate IsDst()
      reads this
    {
      kind == Some(PT.Dst) || kind == Some(PT.Both)
    }

    /** Prints the line, or reports that it was never set. */
    method Write(f: TextFile) returns (ok: bool)
      modifies f
      ensures f.writes == old(f.writes) + WrittenLine(this).0 && ok == WrittenLine(this).1 == kind.Some?
    {
      ok := true;
      match kind
      case Some(Src) => f.Write("-" + line + "\n");
      case Some(Dst) => f.Write("+" + line + "\n");
      case Some(Both) => f.Write(" " + line + "\n");
      case None => ok := false;
    }
  }

  class PatchChunk {
    const srcPos: nat
    const dstPos: nat
    var lines: seq<PatchChunkLine>
    ghost var home: (nat, nat)  // patch and chunk number

    constructor (srcPos: nat, dstPos: nat)
      ensures this.srcPos == srcPos && this.dstPos == dstPos && lines == []
    {
      this.srcPos, this.dstPos, lines := srcPos, dstPos, [];
    }

    method AddLine(line: PatchChunkLine)
      modifies this`lines
      ensures lines == old(lines) + [line]
    {
      lines := lines + [line];
    }

    /** The source lines, as the very objects of the chunk; a line that was never set is none. */
    method Src() returns (src: seq<PatchChunkLine>)
      ensures src == SrcOf(lines)
    {
      src := [];
      for i := 0 to |lines|
        invariant src == SrcOf(lines[..i])
      {
        assert lines[..i + 1][..i] == lines[..i];
        if lines[i].IsSrc() {
          src := src + [lines[i]];
        }
      }
      assert lines[..|lines|] == lines;
    }

    /** The destination lines, as the very objects of the chunk. */
    method Dst() returns (dst: seq<PatchChunkLine>)
      ensures dst == DstOf(lines)
    {
      dst := [];
      for i := 0 to |lines|
        invariant dst == DstOf(lines[..i])
      {
        assert lines[..i + 1][..i] == lines[..i];
        if lines[i].IsDst() {
          dst := dst + [lines[i]];
        }
      }
      assert lines[..|lines|] == lines;
    }

    /** Prints the header and the lines, up to one that was never set. */
    method Write(f: TextFile) returns (ok: bool)
      modifies f
      ensures (f.writes, ok) == old((f.writes + WrittenChunk(this).0, WrittenChunk(this).1))
    {
      ghost var before, parts := f.writes, LineParts(lines);
      var src := Src();
      var dst := Dst();
      f.Write("@@ -" + PT.Field(srcPos, ",", PT.Field(|src|, " +", PT.Field(dstPos, ",", PT.Field(|dst|, " @@", "\n")))));
      ghost var header := [PT.HunkText(srcPos, |src|, dstPos, |dst|)];
      assert f.writes == before + header;
      ok := WriteLines(f, parts);
      Regroup(before, header, UpToFailure(parts).0);
    }

    /** The same for what the chunk is known to print. */
    method WritePart(f: TextFile, ghost part: (seq<string>, bool)) returns (ok: bool)
      requires part == WrittenChunk(this)
      modifies f
      ensures f.writes == old(f.writes) + part.0 && ok == part.1
    {
      ok := Write(f);
    }

    method WriteLines(f: TextFile, ghost parts: seq<(seq<string>, bool)>) returns (ok: bool)
      requires |parts| == |lines| && forall i :: 0 <= i < |lines| ==> parts[i] == WrittenLine(lines[i])
      modifies f
      ensures f.writes == old(f.writes) + UpToFailure(parts).0 && ok == UpToFailure(parts).1
    {
      for i := 0 to |lines|
        invariant f.writes == old(f.writes) + UpToFailure(parts[..i]).0 && UpToFailure(parts[..i]).1
      {
        UpToFailureStep(old(f.writes), parts, i);
        ok := lines[i].Write(f);
        if !ok {
          return;
        }
      }
      ok := true;
      assert parts[..|lines|] == parts;
    }
  }

  class Patch {
    var src: string
    var dst: string
    var chunks: seq<PatchChunk>
    ghost var home: nat

    constructor ()
      ensures src == "" && dst == "" && chunks == []
    {
      src, dst, chunks := "", "", [];
    }

    method SetSrc(src: string)
      modifies this`src
      ensures this.src == src
    {
      this.src := src;
    }

    method SetDst(dst: string)
      modifies this`dst
      ensures this.dst == dst
    {
      this.dst := dst;
    }

    method AddChunk(chunk: PatchChunk)
      modifies this`chunks
      ensures chunks == old(chunks) + [chunk]
    {
      chunks := chunks + [chunk];
    }

    /** Prints the two file lines and the chunks, up to a line that was never set. */
    method Write(f: TextFile) returns (ok: bool)
      modifies f
      ensures (f.writes, ok) == old((f.writes + WrittenPatch(this).0, WrittenPatch(this).1))
    {
      ghost var before, parts := f.writes, ChunkParts(chunks);
      f.Write("--- " + src + "\n");
      f.Write("+++ " + dst + "\n");
      ghost var names := ["--- " + src + "\n", "+++ " + dst + "\n"];
      assert f.writes == before + names;
      forall j | 0 <= j < |chunks| ensures parts[j] == WrittenChunk(chunks[j]) {
        assert old(WrittenChunk(chunks[j])) == parts[j];
      }
      ok := WriteChunks(f, parts);
      Regroup(before, names, UpToFailure(parts).0);
    }

    method WriteChunks(f: TextFile, ghost parts: seq<(seq<string>, bool)>) returns (ok: bool)
      requires |parts| == |chunks| && forall j :: 0 <= j < |chunks| ==> parts[j] == WrittenChunk(chunks[j])
      modifies f
      ensures f.writes == old(f.writes) + UpToFailure(parts).0 && ok == UpToFailure(parts).1
    {
      for j := 0 to |chunks|
        invariant f.writes == old(f.writes) + UpToFailure(parts[..j]).0 && UpToFailure(parts[..j]).1
      {
        UpToFailureStep(old(f.writes), parts, j);
        assert old(WrittenChunk(chunks[j])) == parts[j];
        ok := chunks[j].WritePart(f, parts[j]);
        if !ok {
          return;
        }
      }
      ok := true;
      assert parts[..|chunks|] == parts;
    }
  }

  // ----- what the objects print, set or not

  function SrcOf(lines: seq<PatchChunkLine>): seq<PatchChunkLine>
    reads lines
  {
    if lines == [] then []
    else
      var n := |lines| - 1;
      SrcOf(lines[..n]) + (if lines[n].IsSrc() then [lines[n]] else [])
  }

  function DstOf(lines: seq<PatchChunkLine>): seq<PatchChunkLine>
    reads lines
  {
    if lines == [] then []
    else
      var n := |lines| - 1;
      DstOf(lines[..n]) + (if lines[n].IsDst() then [lines[n]] else [])
  }

  /** What is printed of parts up to one that fails, and whether none does. */
  function UpToFailure(parts: seq<(seq<string>, bool)>): (seq<string>, bool) {
    if parts == [] then ([], true)
    else
      var (out, ok) := UpToFailure(parts[..|parts| - 1]);
      var last := parts[|parts| - 1];
      if ok then (out + last.0, last.1) else (out, false)
  }

  /** A line prints itself; one that was never set prints nothing and fails. */
  function WrittenLine(l: PatchChunkLine): (seq<string>, bool)
    reads l
  {
    if l.kind.Some? then ([PT.LineText(PT.Line(l.kind.value, l.line))], true) else ([], false)
  }

  function LineParts(lines: seq<PatchChunkLine>): seq<(seq<string>, bool)>
    reads lines
  {
    seq(|lines|, i requires 0 <= i < |lines| reads lines => WrittenLine(lines[i]))
  }

  function WrittenChunk(c: PatchChunk): (seq<string>, bool)
    reads c, c.lines
  {
    var (out, ok) := UpToFailure(LineParts(c.lines));
    ([PT.HunkText(c.srcPos, |SrcOf(c.lines)|, c.dstPos, |DstOf(c.lines)|)] + out, ok)
  }

  /** The lines of some chunks. */
  ghost function LinesIn(chunks: seq<PatchChunk>): set<PatchChunkLine>
    reads chunks
  {
    set c, l | c in chunks && l in c.lines :: l
  }

  function ChunkParts(chunks: seq<PatchChunk>): seq<(seq<string>, bool)>
    reads chunks, LinesIn(chunks)
  {
    seq(|chunks|, j requires 0 <= j < |chunks| reads chunks, LinesIn(chunks) =>
      assert chunks[j] in chunks && forall l :: l in chunks[j].lines ==> l in LinesIn(chunks);
      WrittenChunk(chunks[j]))
  }

  function WrittenPatch(p: Patch): (seq<string>, bool)
    reads p, p.chunks, LinesIn(p.chunks)
  {
    var (out, ok) := UpToFailure(ChunkParts(p.chunks));
    (["--- " + p.src + "\n", "+++ " + p.dst + "\n"] + out, ok)
  }

  lemma UpToFailureOne(parts: seq<(seq<string>, bool)>, i: nat)
    requires i < |parts| && UpToFailure(parts[..i]).1
    ensures UpToFailure(parts[..i + 1]) == (UpToFailure(parts[..i]).0 + parts[i].0, parts[i].1)
  {
    assert parts[..i + 1] == parts[..i] + [parts[i]];
    UpToFailureLast(parts[..i], parts[i]);
  }

  /** One part more; a failure ends it. */
  lemma UpToFailureStep(before: seq<string>, parts: seq<(seq<string>, bool)>, i: nat)
    requires i < |parts| && UpToFailure(parts[..i]).1
    ensures before + UpToFailure(parts[..i + 1]).0 == before + UpToFailure(parts[..i]).0 + parts[i].0
    ensures UpToFailure(parts[..i + 1]).1 == parts[i].1
    ensures !parts[i].1 ==> UpToFailure(parts) == UpToFailure(parts[..i + 1])
  {
    UpToFailureOne(parts, i);
    Regroup(before, UpToFailure(parts[..i]).0, parts[i].0);
    if !parts[i].1 {
      UpToFailureEnds(parts, i + 1);
    }
  }

  lemma {:induction false} UpToFailureEnds(parts: seq<(seq<string>, bool)>, n: nat)
    requires n <= |parts| && !UpToFailure(parts[..n]).1
    ensures UpToFailure(parts) == UpToFailure(parts[..n])
  {
    var last := |parts| - 1;
    if n == |parts| {
      assert parts[..n] == parts;
    } else {
      assert parts[..last][..n] == parts[..n];
      UpToFailureEnds(parts[..last], n);
    }
  }

  lemma {:induction false} UpToFailureIff(parts: seq<(seq<string>, bool)>)
    ensures UpToFailure(parts).1 <==> forall k :: 0 <= k < |parts| ==> parts[k].1
  {
    if parts != [] {
      UpToFailureIff(parts[..|parts| - 1]);
    }
  }

  /** Main result: a patch can be printed exactly if every line of its chunks was set. */
  lemma PrintsIff(p: Patch)
    ensures WrittenPatch(p).1 <==> forall c, l :: c in p.chunks && l in c.lines ==> l.kind.Some?
  {
    UpToFailureIff(ChunkParts(p.chunks));
    forall j | 0 <= j < |p.chunks|
      ensures WrittenChunk(p.chunks[j]).1 <==> forall l :: l in p.chunks[j].lines ==> l.kind.Some?
    {
      var lines := p.chunks[j].lines;
      UpToFailureIff(LineParts(lines));
      assert forall k :: 0 <= k < |lines| ==> LineParts(lines)[k].1 == lines[k].kind.Some?;
    }
    assert forall j :: 0 <= j < |p.chunks| ==> ChunkParts(p.chunks)[j] == WrittenChunk(p.chunks[j]);
  }

  lemma RanksStep(v: seq<PT.Line>)
    requires v != []
    ensures var n := |v| - 1;
            && PW.SrcLines(v) == PW.SrcLines(v[..n]) + (if v[n].IsSrc() then [n] else [])
            && PW.DstLines(v) == PW.DstLines(v[..n]) + (if v[n].IsDst() then [n] else [])
  {
  }

  /** The objects picked are those at the positions the value-level pass works on. */
  ghost predicate ArePicked(lines: seq<PatchChunkLine>, ranks: seq<nat>, picked: seq<PatchChunkLine>) {
    |picked| == |ranks| && forall k :: 0 <= k < |ranks| ==> ranks[k] < |lines| && picked[k] == lines[ranks[k]]
  }

  lemma PickMore(lines: seq<PatchChunkLine>, ranks: seq<nat>, picked: seq<PatchChunkLine>, last: bool)
    requires lines != [] && ArePicked(lines[..|lines| - 1], ranks, picked)
    ensures var n := |lines| - 1;
            ArePicked(lines, ranks + (if last then [n] else []), picked + (if last then [lines[n]] else []))
  {
  }

  lemma {:induction false} PickedAre(lines: seq<PatchChunkLine>, v: seq<PT.Line>)
    requires LinesAre(lines, v)
    ensures ArePicked(lines, PW.SrcLines(v), SrcOf(lines)) && ArePicked(lines, PW.DstLines(v), DstOf(lines))
  {
    if lines != [] {
      var n := |lines| - 1;
      var front := v[..n];
      assert LineIs(lines[n], v[n]);
      PickedAre(lines[..n], front);
      PickMore(lines, PW.SrcLines(front), SrcOf(lines[..n]), v[n].IsSrc());
      PickMore(lines, PW.DstLines(front), DstOf(lines[..n]), v[n].IsDst());
      RanksStep(v);
    }
  }

  lemma {:induction false} WrittenLinesAre(lines: seq<PatchChunkLine>, v: seq<PT.Line>)
    requires LinesAre(lines, v)
    ensures UpToFailure(LineParts(lines)) == (PT.PrintLines(v), true)
  {
    if lines != [] {
      var n := |lines| - 1;
      assert LineIs(lines[n], v[n]);
      WrittenLinesAre(lines[..n], v[..n]);
      assert LineParts(lines)[..n] == LineParts(lines[..n]);
    }
  }

  lemma WrittenChunkIs(c: PatchChunk, v: PT.Chunk)
    requires ChunkIs(c, v)
    ensures WrittenChunk(c) == (PT.PrintChunk(v), true)
  {
    PickedAre(c.lines, v.lines);
    WrittenLinesAre(c.lines, v.lines);
  }

  lemma {:induction false} WrittenChunksAre(chunks: seq<PatchChunk>, v: seq<PT.Chunk>)
    requires |chunks| == |v| && forall j :: 0 <= j < |chunks| ==> ChunkIs(chunks[j], v[j])
    ensures UpToFailure(ChunkParts(chunks)) == (PT.PrintChunks(v), true)
  {
    if chunks != [] {
      var n := |chunks| - 1;
      WrittenChunksAre(chunks[..n], v[..n]);
      WrittenChunkIs(chunks[n], v[n]);
      ChunkPartsAppend(chunks);
      UpToFailureLast(ChunkParts(chunks[..n]), WrittenChunk(chunks[n]));
    }
  }

  lemma ChunkPartsAppend(chunks: seq<PatchChunk>)
    requires chunks != []
    ensures var n := |chunks| - 1;
            ChunkParts(chunks) == ChunkParts(chunks[..n]) + [WrittenChunk(chunks[n])]
  {
  }

  lemma UpToFailureLast(parts: seq<(seq<string>, bool)>, last: (seq<string>, bool))
    requires UpToFailure(parts).1
    ensures UpToFailure(parts + [last]) == (UpToFailure(parts).0 + last.0, last.1)
  {
    DropAppended(parts, last);
  }

  /** Main result: objects that stand for a patch print what that patch prints as a value. */
  lemma WrittenPatchIs(p: Patch, v: PT.Patch)
    requires PatchIs(p, v)
    ensures WrittenPatch(p) == (PT.PrintPatch(v), true)
  {
    WrittenChunksAre(p.chunks, v.chunks);
  }

  // ----- objects and the values they stand for

  ghost predicate LineIs(l: PatchChunkLine, v: PT.Line)
    reads l
  {
    l.kind == Some(v.kind) && l.line == v.text
  }

  ghost predicate LinesAre(lines: seq<PatchChunkLine>, v: seq<PT.Line>)
    reads lines
  {
    |lines| == |v| && forall k :: 0 <= k < |lines| ==> LineIs(lines[k], v[k])
  }

  ghost predicate ChunkIs(c: PatchChunk, v: PT.Chunk)
    reads c, c.lines
  {
    c.srcPos == v.srcPos && c.dstPos == v.dstPos && LinesAre(c.lines, v.lines)
  }

  ghost predicate PatchIs(p: Patch, v: PT.Patch)
    reads *
  {
    && p.src == v.src && p.dst == v.dst && |p.chunks| == |v.chunks|
    && forall j :: 0 <= j < |p.chunks| ==> ChunkIs(p.chunks[j], v.chunks[j])
  }

  /**
   The chunk stands for `v` and is chunk `j` of patch `i`. That every object knows its one
   place keeps objects at different places apart. `made` holds all objects of a patch set.
   */
  ghost predicate ChunkAt(c: PatchChunk, i: nat, j: nat, v: PT.Chunk, made: set<object>)
    reads c, c.lines
  {
    && c in made && c.home == (i, j) && ChunkIs(c, v)
    && forall k :: 0 <= k < |c.lines| ==> c.lines[k] in made && c.lines[k].home == (i, j, k)
  }

  ghost predicate PatchAt(p: Patch, i: nat, v: PT.Patch, made: set<object>)
    reads *
  {
    && p in made && p.home == i && PatchIs(p, v)
    && forall j :: 0 <= j < |p.chunks| ==> ChunkAt(p.chunks[j], i, j, v.chunks[j], made)
  }

  ghost predicate Represents(ps: seq<Patch>, vs: seq<PT.Patch>, made: set<object>)
    reads *
  {
    |ps| == |vs| && forall i :: 0 <= i < |ps| ==> PatchAt(ps[i], i, vs[i], made)
  }

  /** All about a patch but the contents of its chunks. */
  ghost predicate FrontAt(p: Patch, i: nat, v: PT.Patch, made: set<object>)
    reads p
  {
    p in made && p.home == i && p.src == v.src && p.dst == v.dst && |p.chunks| == |v.chunks|
  }

  lemma RepresentsByParts(ps: seq<Patch>, vs: seq<PT.Patch>, made: set<object>)
    ensures Represents(ps, vs, made) <==>
            && |ps| == |vs|
            && (forall i :: 0 <= i < |ps| ==> FrontAt(ps[i], i, vs[i], made))
            && (forall i, j :: 0 <= i < |ps| && 0 <= j < |ps[i].chunks| ==>
                  j < |vs[i].chunks| && ChunkAt(ps[i].chunks[j], i, j, vs[i].chunks[j], made))
  {
  }

  // ----- the parser

  /** The current patch and chunk of the parser, as objects. */
  ghost predicate IsCurrent(ps: seq<Patch>, patch: Patch?, chunk: PatchChunk?, s: PT.Progress)
    requires s.Valid() && |ps| == |s.patches|
    reads *
  {
    && (if ps == [] then patch == null else patch == ps[|ps| - 1])
    && match s.cursor
       case Nowhere => chunk == null
       case At(i, j) => j < |ps[i].chunks| && chunk == ps[i].chunks[j]
  }

  /** The parser's variables stand for its progress. */
  ghost predicate ParserIs(ps: seq<Patch>, patch: Patch?, chunk: PatchChunk?, s: PT.Progress, made: set<object>)
    reads *
  {
    s.Valid() && Represents(ps, s.patches, made) && IsCurrent(ps, patch, chunk, s)
  }

  /** A file's header: a new patch at the end. */
  method StartPatch(ps: seq<Patch>, patch: Patch?, chunk: PatchChunk?, name: string,
                    ghost s: PT.Progress, ghost made: set<object>) returns (p: Patch)
    requires ParserIs(ps, patch, chunk, s, made)
    ensures fresh(p)
    ensures ParserIs(ps + [p], p, chunk, s.(patches := s.patches + [PT.Patch(name, "", [])]), made + {p})
  {
    p := new Patch();
    p.home := |ps|;
    p.SetSrc(name);
  }

  /** The second line of a file's header. */
  method NameDestination(ps: seq<Patch>, p: Patch, chunk: PatchChunk?, name: string,
                         ghost s: PT.Progress, ghost made: set<object>)
    requires ParserIs(ps, p, chunk, s, made)
    modifies p`dst
    ensures var n := |s.patches| - 1;
            n >= 0 && ParserIs(ps, p, chunk, s.(patches := s.patches[n := s.patches[n].(dst := name)]), made)
  {
    assert forall i :: 0 <= i < |ps| ==> PatchAt(ps[i], i, s.patches[i], made);
    p.SetDst(name);
  }

  /** A hunk's header: a new chunk at the end of the last patch. */
  method StartChunk(ps: seq<Patch>, p: Patch, chunk: PatchChunk?, srcPos: nat, dstPos: nat,
                    ghost s: PT.Progress, ghost made: set<object>) returns (c: PatchChunk)
    requires ParserIs(ps, p, chunk, s, made)
    modifies p`chunks
    ensures fresh(c) && |s.patches| > 0
    ensures PT.Consume(s, PT.Hunk(srcPos, dstPos)).Ok?
    ensures ParserIs(ps, p, c, PT.Consume(s, PT.Hunk(srcPos, dstPos)).value, made + {c})
  {
    ghost var vs := s.patches;
    ghost var n := |vs| - 1;
    assert forall i :: 0 <= i < |ps| ==> PatchAt(ps[i], i, vs[i], made);
    c := AppendChunk(p, srcPos, dstPos, n, vs[n], made);
    ghost var v' := vs[n].(chunks := vs[n].chunks + [PT.Chunk(srcPos, dstPos, [])]);
    assert PT.Consume(s, PT.Hunk(srcPos, dstPos)) == PT.Ok(PT.Progress(vs[n := v'], PT.At(n, |vs[n].chunks|)));
    assert Represents(ps, vs[n := v'], made + {c});
  }

  method AppendChunk(p: Patch, srcPos: nat, dstPos: nat, ghost i: nat, ghost v: PT.Patch, ghost made: set<object>)
    returns (c: PatchChunk)
    requires PatchAt(p, i, v, made)
    modifies p`chunks
    ensures fresh(c) && p.chunks == old(p.chunks) + [c]
    ensures PatchAt(p, i, v.(chunks := v.chunks + [PT.Chunk(srcPos, dstPos, [])]), made + {c})
  {
    c := new PatchChunk(srcPos, dstPos);
    c.home := (i, |p.chunks|);
    p.AddChunk(c);
  }

  /** A content line goes to the current chunk. */
  method AddContent(ps: seq<Patch>, c: PatchChunk, content: PT.Line,
                    ghost i: nat, ghost j: nat, ghost vs: seq<PT.Patch>, ghost made: set<object>) returns (l: PatchChunkLine)
    requires Represents(ps, vs, made) && i < |ps| && j < |ps[i].chunks| && c == ps[i].chunks[j]
    modifies c`lines
    ensures fresh(l) && j < |vs[i].chunks| && Represents(ps, PT.AddLine(vs, i, j, content), made + {l})
  {
    forall i', j' | 0 <= i' < |ps| && 0 <= j' < |ps[i'].chunks|
      ensures ChunkAt(ps[i'].chunks[j'], i', j', vs[i'].chunks[j'], made)
    {
      assert PatchAt(ps[i'], i', vs[i'], made);
    }
    l := AppendContent(c, content, i, j, vs[i].chunks[j], made);
    ghost var vs' := PT.AddLine(vs, i, j, content);
    forall i', j' | 0 <= i' < |ps| && 0 <= j' < |ps[i'].chunks|
      ensures ChunkAt(ps[i'].chunks[j'], i', j', vs'[i'].chunks[j'], made + {l})
    {
      if (i', j') != (i, j) {
        assert old(ChunkAt(ps[i'].chunks[j'], i', j', vs[i'].chunks[j'], made));
      }
    }
    forall i' | 0 <= i' < |ps| ensures FrontAt(ps[i'], i', vs'[i'], made + {l}) {
      assert old(FrontAt(ps[i'], i', vs[i'], made));
    }
    RepresentsByParts(ps, vs', made + {l});
  }

  method AppendContent(c: PatchChunk, content: PT.Line, ghost i: nat, ghost j: nat, ghost v: PT.Chunk, ghost made: set<object>)
    returns (l: PatchChunkLine)
    requires ChunkAt(c, i, j, v, made)
    modifies c`lines
    ensures fresh(l) && ChunkAt(c, i, j, v.(lines := v.lines + [content]), made + {l})
  {
    l := new PatchChunkLine();
    l.home := (i, j, |c.lines|);
    l.Set(content.kind, content.text);
    c.AddLine(l);
  }

  method AddContentLine(ps: seq<Patch>, patch: Patch?, chunk: PatchChunk, content: PT.Line,
                        ghost s: PT.Progress, ghost made: set<object>) returns (l: PatchChunkLine)
    requires ParserIs(ps, patch, chunk, s, made)
    modifies chunk`lines
    ensures fresh(l) && PT.Consume(s, PT.Content(content)).Ok?
    ensures ParserIs(ps, patch, chunk, PT.Consume(s, PT.Content(content)).value, made + {l})
  {
    l := AddContent(ps, chunk, content, s.cursor.patch, s.cursor.chunk, s.patches, made);
  }

  lemma CurrentIsMade(ps: seq<Patch>, patch: Patch?, chunk: PatchChunk?, s: PT.Progress, made: set<object>)
    requires ParserIs(ps, patch, chunk, s, made)
    ensures patch == null <==> s.patches == []
    ensures chunk == null <==> s.cursor.Nowhere?
    ensures (patch != null ==> patch in made) && (chunk != null ==> chunk in made)
  {
    if patch != null {
      assert PatchAt(patch, |ps| - 1, s.patches[|ps| - 1], made);
    }
    if chunk != null {
      var i, j := s.cursor.patch, s.cursor.chunk;
      assert PatchAt(ps[i], i, s.patches[i], made);
      assert ChunkAt(chunk, i, j, s.patches[i].chunks[j], made);
    }
  }

  /** What one iteration does with the line's token. */
  method Consume(token: PT.Token, ps: seq<Patch>, patch: Patch?, chunk: PatchChunk?,
                 ghost s: PT.Progress, ghost made: set<object>)
    returns (error: Option<PT.Error>, ps': seq<Patch>, patch': Patch?, chunk': PatchChunk?, ghost made': set<object>)
    requires ParserIs(ps, patch, chunk, s, made)
    modifies made
    ensures made <= made' && fresh(made' - made)
    ensures match PT.Consume(s, token)
            case Err(e) => error == Some(e)
            case Ok(t) => error == None && ParserIs(ps', patch', chunk', t, made')
  {
    error, ps', patch', chunk', made' := None, ps, patch, chunk, made;
    CurrentIsMade(ps, patch, chunk, s, made);
    match token {
      case FileSrc(name) =>
        patch' := StartPatch(ps, patch, chunk, name, s, made);
        ps' := ps + [patch'];
        made' := made + {patch'};
      case FileDst(name) =>
        if patch == null {
          error := Some(PT.NoPatch);
          return;
        }
        NameDestination(ps, patch, chunk, name, s, made);
      case Hunk(srcPos, dstPos) =>
        if patch == null {
          error := Some(PT.NoPatch);
          return;
        }
        chunk' := StartChunk(ps, patch, chunk, srcPos, dstPos, s, made);
        made' := made + {chunk'};
      case Content(content) =>
        if chunk == null {
          error := Some(PT.NoChunk);
          return;
        }
        var l := AddContentLine(ps, patch, chunk, content, s, made);
        made' := made + {l};
      case Unmatched =>
        error := Some(PT.BadLine);
    }
  }

  method ParsePatchset(lines: seq<string>) returns (r: PT.Result<seq<Patch>>, ghost made: set<object>)
    ensures fresh(made)
    ensures match PT.Parse(lines)
            case Err(e) => r == PT.Err(e)
            case Ok(vs) => r.Ok? && Represents(r.value, vs, made)
  {
    made := {};
    var patchset: seq<Patch> := [];
    var currentPatch: Patch? := null;
    var currentChunk: PatchChunk? := null;
    ghost var s := PT.START;
    ghost var tokens := PT.Tokens(lines);
    for n := 0 to |lines|
      invariant fresh(made) && AbsorbedTo(tokens, n, s)
      invariant ParserIs(patchset, currentPatch, currentChunk, s, made)
    {
      var error;
      TokensAt(lines, n);
      error, patchset, currentPatch, currentChunk, made :=
        Consume(PT.Tokenize(lines[n]), patchset, currentPatch, currentChunk, s, made);
      AbsorbStep(tokens, n, s);
      if error.Some? {
        return PT.Err(error.value), made;
      }
      s := PT.Consume(s, tokens[n]).value;
    }
    assert tokens[..|lines|] == tokens;
    return PT.Ok(patchset), made;
  }

  /** The parser's progress after the first `n` tokens. */
  ghost predicate AbsorbedTo(tokens: seq<PT.Token>, n: nat, s: PT.Progress) {
    n <= |tokens| && s.Valid() && PT.Absorb(PT.START, tokens[..n]) == PT.Ok(s)
  }

  lemma {:induction false} TokensAt(lines: seq<string>, n: nat)
    requires n < |lines|
    ensures PT.Tokens(lines)[n] == PT.Tokenize(lines[n])
  {
    if n < |lines| - 1 {
      TokensAt(lines[..|lines| - 1], n);
    }
  }

  /** One token more; the first exception is the parser's result. */
  lemma AbsorbStep(tokens: seq<PT.Token>, n: nat, s: PT.Progress)
    requires n < |tokens| && AbsorbedTo(tokens, n, s)
    ensures match PT.Consume(s, tokens[n])
            case Err(e) => PT.Absorb(PT.START, tokens) == PT.Err(e)
            case Ok(t) => AbsorbedTo(tokens, n + 1, t)
  {
    assert tokens[..n + 1][..n] == tokens[..n];
    if PT.Consume(s, tokens[n]).Err? {
      AbsorbFails(tokens, n + 1);
    }
  }

  lemma {:induction false} AbsorbFails(tokens: seq<PT.Token>, n: nat)
    requires n <= |tokens| && PT.Absorb(PT.START, tokens[..n]).Err?
    ensures PT.Absorb(PT.START, tokens) == PT.Absorb(PT.START, tokens[..n])
  {
    if n == |tokens| {
      assert tokens[..n] == tokens;
    } else {
      assert tokens[..|tokens| - 1][..n] == tokens[..n];
      AbsorbFails(tokens[..|tokens| - 1], n);
    }
  }

  // ----- the whitespace pass

  ghost function LineSet(c: PatchChunk): set<PatchChunkLine>
    reads c
  {
    set l | l in c.lines
  }

  ghost function LinesOf(p: Patch): set<PatchChunkLine>
    reads p, p.chunks
  {
    LinesIn(p.chunks)
  }

  /** One comparison of a source with a destination line, which may be any two lines of the chunk. */
  method RestoreBlank(c: PatchChunk, s: PatchChunkLine, d: PatchChunkLine,
                      ghost a: nat, ghost b: nat, ghost i: nat, ghost j: nat, ghost v: PT.Chunk, ghost made: set<object>)
    requires ChunkAt(c, i, j, v, made) && a < |c.lines| && b < |c.lines| && s == c.lines[a] && d == c.lines[b]
    modifies d`line
    ensures a < |v.lines| && b < |v.lines| && ChunkAt(c, i, j, v.(lines := PW.Pair(v.lines, a, b)), made)
  {
    assert LineIs(s, v.lines[a]) && LineIs(d, v.lines[b]);
    forall k | 0 <= k < |c.lines| ensures LineIs(c.lines[k], v.lines[k]) && (c.lines[k] == d ==> k == b) {
      assert c.lines[k].home == (i, j, k);
    }
    var m := PW.TrailingBlank(s.line);
    if m.Some? && m.value.0 == d.line {
      d.AppendToLine(m.value.1);
    }
  }

  /** The source and the destination lines, by their positions in the chunk. */
  method BothSides(c: PatchChunk, ghost v: seq<PT.Line>) returns (src: seq<PatchChunkLine>, dst: seq<PatchChunkLine>)
    requires LinesAre(c.lines, v)
    ensures |src| == |PW.SrcLines(v)| && forall k :: 0 <= k < |src| ==> src[k] == c.lines[PW.SrcLines(v)[k]]
    ensures |dst| == |PW.DstLines(v)| && forall k :: 0 <= k < |dst| ==> dst[k] == c.lines[PW.DstLines(v)[k]]
  {
    src := c.Src();
    dst := c.Dst();
    PickedAre(c.lines, v);
  }

  /** The loop over the ranks of one chunk; running out of destination lines ends it. */
  method PassChunk(c: PatchChunk, ghost i: nat, ghost j: nat, ghost v: PT.Chunk, ghost made: set<object>) returns (ok: bool)
    requires ChunkAt(c, i, j, v, made)
    modifies LineSet(c)`line
    ensures ChunkAt(c, i, j, PW.PassChunk(v).0, made) && ok == PW.PassChunk(v).1
  {
    var src, dst := BothSides(c, v.lines);
    ghost var ranks, ranks' := PW.SrcLines(v.lines), PW.DstLines(v.lines);
    ghost var now := v.lines;
    for k := 0 to |src|
      invariant |now| == |v.lines|
      invariant ChunkAt(c, i, j, v.(lines := now), made)
      invariant PW.PairAll(v.lines, ranks, ranks', 0) == PW.PairAll(now, ranks, ranks', k)
    {
      if k >= |dst| {
        return false;
      }
      RestoreBlank(c, src[k], dst[k], ranks[k], ranks'[k], i, j, v.(lines := now), made);
      now := PW.Pair(now, ranks[k], ranks'[k]);
    }
    return true;
  }

  /** The pass over one chunk of a patch leaves the other chunks alone. */
  method PassChunkOf(p: Patch, j: nat, ghost i: nat, ghost v: PT.Patch, ghost made: set<object>) returns (ok: bool)
    requires PatchAt(p, i, v, made) && j < |p.chunks|
    modifies LineSet(p.chunks[j])`line
    ensures j < |v.chunks| && ok == PW.PassChunk(v.chunks[j]).1
    ensures PatchAt(p, i, v.(chunks := v.chunks[j := PW.PassChunk(v.chunks[j]).0]), made)
  {
    assert forall j' :: 0 <= j' < |p.chunks| ==> ChunkAt(p.chunks[j'], i, j', v.chunks[j'], made);
    ok := PassChunk(p.chunks[j], i, j, v.chunks[j], made);
    ghost var v' := v.(chunks := v.chunks[j := PW.PassChunk(v.chunks[j]).0]);
    forall j' | 0 <= j' < |p.chunks| ensures ChunkAt(p.chunks[j'], i, j', v'.chunks[j'], made) {
      if j' != j {
        assert old(ChunkAt(p.chunks[j'], i, j', v.chunks[j'], made));
      }
    }
  }

  /** The next chunk of a patch all of whose earlier chunks were looked at to the end. */
  method PassNextChunk(p: Patch, j: nat, ghost i: nat, ghost v: PT.Patch, ghost made: set<object>,
                       ghost frame: set<PatchChunkLine>) returns (ok: bool)
    requires forall c :: c in p.chunks ==> LineSet(c) <= frame
    requires j < |p.chunks| == |v.chunks| && PW.UntilFailure(v.chunks[..j], PW.PassChunk).1
    requires PatchAt(p, i, v.(chunks := PW.Midway(v.chunks, PW.PassChunk, j)), made)
    modifies frame`line
    ensures PatchAt(p, i, v.(chunks := PW.Midway(v.chunks, PW.PassChunk, j + 1)), made)
    ensures ok == PW.UntilFailure(v.chunks[..j + 1], PW.PassChunk).1
    ensures !ok ==> PW.UntilFailure(v.chunks, PW.PassChunk) == (PW.Midway(v.chunks, PW.PassChunk, j + 1), false)
  {
    PW.MidwayStep(v.chunks, PW.PassChunk, j);
    assert p.chunks[j] in p.chunks;
    ok := PassChunkOf(p, j, i, v.(chunks := PW.Midway(v.chunks, PW.PassChunk, j)), made);
    if !ok {
      PW.MidwayFailed(v.chunks, PW.PassChunk, j + 1);
    }
  }

  /** The pass over a patch, which edits nothing but the texts of its lines, all in `frame`. */
  method PassPatch(p: Patch, ghost i: nat, ghost v: PT.Patch, ghost made: set<object>, ghost frame: set<PatchChunkLine>)
    returns (ok: bool)
    requires PatchAt(p, i, v, made) && forall c :: c in p.chunks ==> LineSet(c) <= frame
    modifies frame`line
    ensures PatchAt(p, i, PW.PassPatch(v).0, made) && ok == PW.PassPatch(v).1
  {
    ghost var n := |v.chunks|;
    ghost var states := seq(n + 1, k requires 0 <= k <= n => v.(chunks := PW.Midway(v.chunks, PW.PassChunk, k)));
    ghost var alive := seq(n + 1, k requires 0 <= k <= n => PW.UntilFailure(v.chunks[..k], PW.PassChunk).1);
    PW.MidwayEnds(v.chunks, PW.PassChunk);
    ok := PassEachChunk(p, i, v, made, frame, states, alive);
  }

  /** The loop of the pass over a patch; `states` are the patch and `alive` the flag after each chunk. */
  method PassEachChunk(p: Patch, ghost i: nat, ghost v: PT.Patch, ghost made: set<object>,
                       ghost frame: set<PatchChunkLine>, ghost states: seq<PT.Patch>, ghost alive: seq<bool>)
    returns (ok: bool)
    requires |states| == |alive| == |p.chunks| + 1 == |v.chunks| + 1 && alive[0]
    requires PatchAt(p, i, states[0], made) && forall c :: c in p.chunks ==> LineSet(c) <= frame
    requires forall k :: 0 <= k < |states| ==> states[k] == v.(chunks := PW.Midway(v.chunks, PW.PassChunk, k))
    requires forall k :: 0 <= k < |alive| ==> alive[k] == PW.UntilFailure(v.chunks[..k], PW.PassChunk).1
    modifies frame`line
    ensures ok ==> PatchAt(p, i, states[|p.chunks|], made) && alive[|p.chunks|]
    ensures !ok ==> PatchAt(p, i, PW.PassPatch(v).0, made) && !PW.PassPatch(v).1
  {
    var j := 0;
    while j < |p.chunks|
      invariant j <= |p.chunks| && alive[j]
      invariant PatchAt(p, i, states[j], made)
    {
      ok := PassNextChunk(p, j, i, v, made, frame);
      if !ok {
        return;
      }
      j := j + 1;
    }
    ok := true;
  }

  /** The pass over one patch of a set leaves the other patches alone. */
  method PassPatchOf(ps: seq<Patch>, i: nat, ghost vs: seq<PT.Patch>, ghost made: set<object>) returns (ok: bool)
    requires Represents(ps, vs, made) && i < |ps|
    modifies LinesOf(ps[i])`line
    ensures i < |vs| && ok == PW.PassPatch(vs[i]).1
    ensures Represents(ps, vs[i := PW.PassPatch(vs[i]).0], made)
  {
    forall i', j' | 0 <= i' < |ps| && 0 <= j' < |ps[i'].chunks|
      ensures ChunkAt(ps[i'].chunks[j'], i', j', vs[i'].chunks[j'], made)
    {
      assert PatchAt(ps[i'], i', vs[i'], made);
    }
    ok := PassPatch(ps[i], i, vs[i], made, LinesOf(ps[i]));
    ghost var vs' := vs[i := PW.PassPatch(vs[i]).0];
    forall i' | 0 <= i' < |ps| ensures PatchAt(ps[i'], i', vs'[i'], made) {
      if i' != i {
        assert old(PatchAt(ps[i'], i', vs[i'], made));
        forall j' | 0 <= j' < |ps[i'].chunks|
          ensures ChunkAt(ps[i'].chunks[j'], i', j', vs[i'].chunks[j'], made)
        {
          assert old(ChunkAt(ps[i'].chunks[j'], i', j', vs[i'].chunks[j'], made));
        }
      }
    }
  }

  /** Parses and then undoes removed trailing blanks in place. */
  method RemoveTrailingWhitespaceChanges(lines: seq<string>) returns (r: PT.Result<seq<Patch>>, ghost made: set<object>)
    ensures fresh(made)
    ensures match PW.RemoveTrailingWhitespaceChanges(lines)
            case Err(e) => r == PT.Err(e)
            case Ok(vs) => r.Ok? && Represents(r.value, vs, made)
  {
    r, made := ParsePatchset(lines);
    if r.Ok? {
      PassAll(r.value, PT.Parse(lines).value, made);
    }
  }

  /** The next patch of a set all of whose earlier patches were looked at to the end. */
  method PassNextPatch(ps: seq<Patch>, i: nat, ghost vs: seq<PT.Patch>, ghost made: set<object>) returns (ok: bool)
    requires i < |ps| == |vs| && PW.UntilFailure(vs[..i], PW.PassPatch).1
    requires Represents(ps, PW.Midway(vs, PW.PassPatch, i), made)
    modifies LinesOf(ps[i])`line
    ensures Represents(ps, PW.Midway(vs, PW.PassPatch, i + 1), made)
    ensures ok == PW.UntilFailure(vs[..i + 1], PW.PassPatch).1
    ensures !ok ==> PW.Pass(vs) == (PW.Midway(vs, PW.PassPatch, i + 1), false)
  {
    PW.MidwayStep(vs, PW.PassPatch, i);
    ok := PassPatchOf(ps, i, PW.Midway(vs, PW.PassPatch, i), made);
    if !ok {
      PW.MidwayFailed(vs, PW.PassPatch, i + 1);
    }
  }

  lemma LinesAreMade(p: Patch, i: nat, v: PT.Patch, made: set<object>)
    requires PatchAt(p, i, v, made)
    ensures forall l :: l in LinesOf(p) ==> l in made
  {
    forall l | l in LinesOf(p) ensures l in made {
      var c :| c in p.chunks && l in c.lines;
      var j :| 0 <= j < |p.chunks| && p.chunks[j] == c;
      assert ChunkAt(c, i, j, v.chunks[j], made);
    }
  }

  method PassAll(ps: seq<Patch>, ghost vs: seq<PT.Patch>, ghost made: set<object>)
    requires Represents(ps, vs, made)
    modifies made
    ensures Represents(ps, PW.Pass(vs).0, made)
  {
    PW.MidwayEnds(vs, PW.PassPatch);
    for i := 0 to |ps|
      invariant |ps| == |vs|
      invariant PW.UntilFailure(vs[..i], PW.PassPatch).1
      invariant Represents(ps, PW.Midway(vs, PW.PassPatch, i), made)
    {
      LinesAreMade(ps[i], i, PW.Midway(vs, PW.PassPatch, i)[i], made);
      var ok := PassNextPatch(ps, i, vs, made);
      if !ok {
        return;
      }
    }
  }
}
