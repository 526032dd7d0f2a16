/**
 Printing and parsing undo each other, exactly for the patch sets none of whose one-sided
 lines reads like a file header; and everything the parser returns is such a set.
 */
module PatchRoundTrip {
  import opened Sequences
  import opened Sums
  import opened PatchText
  import opened PatchTokens

  // ----- patch sets by their lines

  ghost predicate PlainChunk(c: Chunk) {
    forall l :: l in c.lines ==> !LooksLikeHeader(l)
  }

  ghost predicate PlainPatch(p: Patch) {
    forall c :: c in p.chunks ==> PlainChunk(c)
  }

  /** No source-only text starts with "-- " and no destination-only text with "++ ". */
  ghost predicate Plain(patches: seq<Patch>) {
    forall p :: p in patches ==> PlainPatch(p)
  }

  // ----- parsing in pieces

  lemma {:induction false} ParseConcat(s: Progress, a: seq<Token>, b: seq<Token>)
    requires s.Valid()
    ensures Absorb(s, a + b)
            == match Absorb(s, a) case Err(e) => Err(e) case Ok(t) => Absorb(t, b)
  {
    if b == [] {
      assert a + b == a;
    } else {
      FrontOfSum(a, b);
      ParseConcat(s, a, b[..|b| - 1]);
    }
  }

  lemma ParseThen(s: Progress, a: seq<Token>, t: Progress, b: seq<Token>)
    requires s.Valid() && Absorb(s, a) == Ok(t)
    ensures Absorb(s, a + b) == Absorb(t, b)
  {
    ParseConcat(s, a, b);
  }

  lemma ParseOne(s: Progress, token: Token)
    requires s.Valid()
    ensures Absorb(s, [token]) == Consume(s, token)
  {
    assert [token][..0] == [];
    assert Absorb(s, [token][..0]) == Ok(s);
  }

  /** The patches with lines added to one chunk. */
  function WithLines(patches: seq<Patch>, i: nat, j: nat, lines: seq<Line>): seq<Patch>
    requires i < |patches| && j < |patches[i].chunks|
  {
    var p := patches[i];
    var c := p.chunks[j];
    patches[i := p.(chunks := p.chunks[j := c.(lines := c.lines + lines)])]
  }

  /** The patches with chunks added to the last one. */
  function WithChunks(patches: seq<Patch>, chunks: seq<Chunk>): seq<Patch>
    requires patches != []
  {
    var n := |patches| - 1;
    patches[n := patches[n].(chunks := patches[n].chunks + chunks)]
  }

  lemma WithLinesNone(patches: seq<Patch>, i: nat, j: nat)
    requires i < |patches| && j < |patches[i].chunks|
    ensures WithLines(patches, i, j, []) == patches
  {
    var p := patches[i];
    var c := p.chunks[j];
    assert c.lines + [] == c.lines;
    assert p.chunks[j := c] == p.chunks;
    assert patches[i := p] == patches;
  }

  lemma WithLinesOneMore(patches: seq<Patch>, i: nat, j: nat, lines: seq<Line>, l: Line)
    requires i < |patches| && j < |patches[i].chunks|
    ensures AddLine(WithLines(patches, i, j, lines), i, j, l) == WithLines(patches, i, j, lines + [l])
  {
    var p := patches[i];
    var c := p.chunks[j];
    assert (c.lines + lines) + [l] == c.lines + (lines + [l]);
    var c1, c2 := c.(lines := c.lines + lines), c.(lines := c.lines + (lines + [l]));
    assert p.chunks[j := c1][j := c2] == p.chunks[j := c2];
    var p1, p2 := p.(chunks := p.chunks[j := c1]), p.(chunks := p.chunks[j := c2]);
    assert patches[i := p1][i := p2] == patches[i := p2];
  }

  lemma {:induction false} ParsePrintedLines(s: Progress, i: nat, j: nat, lines: seq<Line>)
    requires s.Valid() && s.cursor == At(i, j)
    requires forall l :: l in lines ==> !LooksLikeHeader(l)
    ensures Absorb(s, LineTokens(lines)) == Ok(s.(patches := WithLines(s.patches, i, j, lines)))
  {
    if lines == [] {
      WithLinesNone(s.patches, i, j);
    } else {
      var front, l := lines[..|lines| - 1], lines[|lines| - 1];
      assert l in lines;
      ParsePrintedLines(s, i, j, front);
      var t := s.(patches := WithLines(s.patches, i, j, front));
      ParseThen(s, LineTokens(front), t, [Content(l)]);
      ParseOne(t, Content(l));
      WithLinesOneMore(s.patches, i, j, front, l);
      FrontAndLast(lines);
    }
  }

  lemma WithChunksNone(patches: seq<Patch>)
    requires patches != []
    ensures WithChunks(patches, []) == patches
  {
    var n := |patches| - 1;
    assert patches[n].chunks + [] == patches[n].chunks;
    assert patches[n := patches[n]] == patches;
  }

  lemma WithChunksOneMore(patches: seq<Patch>, chunks: seq<Chunk>, c: Chunk)
    requires patches != []
    ensures WithChunks(WithChunks(patches, chunks), [c]) == WithChunks(patches, chunks + [c])
  {
    var n := |patches| - 1;
    var p := patches[n];
    assert (p.chunks + chunks) + [c] == p.chunks + (chunks + [c]);
    var p1, p2 := p.(chunks := p.chunks + chunks), p.(chunks := p.chunks + (chunks + [c]));
    assert patches[n := p1][n := p2] == patches[n := p2];
  }

  /** A chunk opened empty and then filled is the chunk. */
  lemma OpenAndFill(patches: seq<Patch>, c: Chunk)
    requires patches != []
    ensures var n := |patches| - 1;
            WithLines(WithChunks(patches, [c.(lines := [])]), n, |patches[n].chunks|, c.lines) == WithChunks(patches, [c])
  {
    var n := |patches| - 1;
    var p, empty := patches[n], c.(lines := []);
    assert [] + c.lines == c.lines;
    assert (p.chunks + [empty])[|p.chunks| := c] == p.chunks + [c];
    var p1, p2 := p.(chunks := p.chunks + [empty]), p.(chunks := p.chunks + [c]);
    assert patches[n := p1][n := p2] == patches[n := p2];
  }

  lemma ParsePrintedChunk(s: Progress, c: Chunk)
    requires s.Valid() && s.patches != [] && PlainChunk(c)
    ensures var n := |s.patches| - 1;
            Absorb(s, ChunkTokens(c)) == Ok(Progress(WithChunks(s.patches, [c]), At(n, |s.patches[n].chunks|)))
  {
    var n := |s.patches| - 1;
    var m := |s.patches[n].chunks|;
    var t := Progress(WithChunks(s.patches, [c.(lines := [])]), At(n, m));
    var open := Hunk(c.srcPos, c.dstPos);
    ParseOne(s, open);
    ParseThen(s, [open], t, LineTokens(c.lines));
    ParsePrintedLines(t, n, m, c.lines);
    OpenAndFill(s.patches, c);
  }

  lemma {:induction false} ParsePrintedChunks(s: Progress, chunks: seq<Chunk>) returns (cursor: Cursor)
    requires s.Valid() && s.patches != []
    requires forall c :: c in chunks ==> PlainChunk(c)
    ensures Absorb(s, ChunksTokens(chunks)) == Ok(Progress(WithChunks(s.patches, chunks), cursor))
  {
    if chunks == [] {
      cursor := s.cursor;
      WithChunksNone(s.patches);
    } else {
      var front, c := chunks[..|chunks| - 1], chunks[|chunks| - 1];
      assert c in chunks;
      var middle := ParsePrintedChunks(s, front);
      var t := Progress(WithChunks(s.patches, front), middle);
      cursor := At(|s.patches| - 1, |t.patches[|s.patches| - 1].chunks|);
      ParseThen(s, ChunksTokens(front), t, ChunkTokens(c));
      ParsePrintedChunk(t, c);
      WithChunksOneMore(s.patches, front, c);
      FrontAndLast(chunks);
    }
  }

  /** The two header lines of a patch open it. */
  lemma ParsePatchHeader(s: Progress, p: Patch)
    requires s.Valid()
    ensures Absorb(s, [FileSrc(p.src), FileDst(p.dst)]) == Ok(s.(patches := s.patches + [p.(chunks := [])]))
  {
    var named := s.(patches := s.patches + [Patch(p.src, "", [])]);
    ParseOne(s, FileSrc(p.src));
    ParseThen(s, [FileSrc(p.src)], named, [FileDst(p.dst)]);
    ParseOne(named, FileDst(p.dst));
    assert named.patches[|s.patches| := p.(chunks := [])] == s.patches + [p.(chunks := [])];
    assert [FileSrc(p.src)] + [FileDst(p.dst)] == [FileSrc(p.src), FileDst(p.dst)];
  }

  lemma FillPatch(patches: seq<Patch>, p: Patch)
    ensures WithChunks(patches + [p.(chunks := [])], p.chunks) == patches + [p]
  {
    assert [] + p.chunks == p.chunks;
  }

  lemma ParsePrintedPatch(s: Progress, p: Patch) returns (cursor: Cursor)
    requires s.Valid() && PlainPatch(p)
    ensures Absorb(s, TokensOfOne(p)) == Ok(Progress(s.patches + [p], cursor))
  {
    var t := s.(patches := s.patches + [p.(chunks := [])]);
    ParsePatchHeader(s, p);
    ParseThen(s, [FileSrc(p.src), FileDst(p.dst)], t, ChunksTokens(p.chunks));
    cursor := ParsePrintedChunks(t, p.chunks);
    FillPatch(s.patches, p);
  }

  lemma ParseOneMore(before: seq<Token>, t: Progress, p: Patch) returns (cursor: Cursor)
    requires t.Valid() && Absorb(START, before) == Ok(t) && PlainPatch(p)
    ensures Absorb(START, before + TokensOfOne(p)) == Ok(Progress(t.patches + [p], cursor))
  {
    ParseThen(START, before, t, TokensOfOne(p));
    cursor := ParsePrintedPatch(t, p);
  }

  lemma {:induction false} ParsePrinted(patches: seq<Patch>) returns (cursor: Cursor)
    requires forall p :: p in patches ==> PlainPatch(p)
    ensures Absorb(START, SetTokens(patches)) == Ok(Progress(patches, cursor))
  {
    if patches == [] {
      cursor := Nowhere;
    } else {
      assert patches[|patches| - 1] in patches;
      var middle := ParsePrinted(patches[..|patches| - 1]);
      cursor := ParseLastPatch(patches, middle);
    }
  }

  lemma ParseLastPatch(patches: seq<Patch>, middle: Cursor) returns (cursor: Cursor)
    requires patches != [] && PlainPatch(patches[|patches| - 1])
    requires Absorb(START, SetTokens(patches[..|patches| - 1])) == Ok(Progress(patches[..|patches| - 1], middle))
    ensures Absorb(START, SetTokens(patches)) == Ok(Progress(patches, cursor))
  {
    var front, p := patches[..|patches| - 1], patches[|patches| - 1];
    cursor := ParseOneMore(SetTokens(front), Progress(front, middle), p);
    FrontAndLast(patches);
  }

  // ----- counting what printing and parsing do

  function InChunk(f: Line -> nat): Chunk -> nat {
    (c: Chunk) => Sum(c.lines, f)
  }

  function InPatch(f: Line -> nat): Patch -> nat {
    (p: Patch) => Sum(p.chunks, InChunk(f))
  }

  /** A sum over all content lines of a patch set. */
  function OverLines(patches: seq<Patch>, f: Line -> nat): nat {
    Sum(patches, InPatch(f))
  }

  function One(l: Line): nat { 1 }

  function SrcHeader(l: Line): nat {
    if l.kind == Src && LooksLikeHeader(l) then 1 else 0
  }

  function DstHeader(l: Line): nat {
    if l.kind == Dst && LooksLikeHeader(l) then 1 else 0
  }

  function IsFileSrc(t: Token): nat {
    if t.FileSrc? then 1 else 0
  }

  function IsContent(t: Token): nat {
    if t.Content? then 1 else 0
  }

  lemma AddLineCount(patches: seq<Patch>, i: nat, j: nat, l: Line)
    requires i < |patches| && j < |patches[i].chunks|
    ensures OverLines(AddLine(patches, i, j, l), One) == OverLines(patches, One) + 1
  {
    var p := patches[i];
    var c := p.chunks[j];
    var c' := c.(lines := c.lines + [l]);
    var p' := p.(chunks := p.chunks[j := c']);
    SumAppend(c.lines, l, One);
    SumUpdate(p.chunks, j, c', InChunk(One));
    SumUpdate(patches, i, p', InPatch(One));
  }

  lemma ConsumeCounts(s: Progress, token: Token)
    requires s.Valid() && Consume(s, token).Ok?
    ensures var t := Consume(s, token).value;
            && |t.patches| == |s.patches| + IsFileSrc(token)
            && OverLines(t.patches, One) == OverLines(s.patches, One) + IsContent(token)
  {
    var n := |s.patches|;
    match token
    case FileSrc(name) => SumAppend(s.patches, Patch(name, "", []), InPatch(One));
    case FileDst(name) => SumUpdate(s.patches, n - 1, s.patches[n - 1].(dst := name), InPatch(One));
    case Hunk(a, b) =>
      var p := s.patches[n - 1];
      SumAppend(p.chunks, Chunk(a, b, []), InChunk(One));
      SumUpdate(s.patches, n - 1, p.(chunks := p.chunks + [Chunk(a, b, [])]), InPatch(One));
    case Content(l) => AddLineCount(s.patches, s.cursor.patch, s.cursor.chunk, l);
    case Unmatched =>
  }

  lemma {:induction false} ParseCounts(s: Progress, tokens: seq<Token>)
    requires s.Valid() && Absorb(s, tokens).Ok?
    ensures var t := Absorb(s, tokens).value;
            && |t.patches| == |s.patches| + Sum(tokens, IsFileSrc)
            && OverLines(t.patches, One) == OverLines(s.patches, One) + Sum(tokens, IsContent)
  {
    if tokens != [] {
      var front, x := tokens[..|tokens| - 1], tokens[|tokens| - 1];
      ParseCounts(s, front);
      ConsumeCounts(Absorb(s, front).value, x);
      SumAppend(front, x, IsFileSrc);
      SumAppend(front, x, IsContent);
      FrontAndLast(tokens);
    }
  }

  /** Tokens that begin a file and that are content, with what went astray accounted for. */
  ghost predicate Counted(tokens: seq<Token>, files: nat, srcHeaders: nat, dstHeaders: nat, lines: nat) {
    && Sum(tokens, IsFileSrc) == files + srcHeaders
    && Sum(tokens, IsContent) + srcHeaders + dstHeaders == lines
  }

  lemma CountedConcat(a: seq<Token>, f: nat, s: nat, d: nat, n: nat, b: seq<Token>, f': nat, s': nat, d': nat, n': nat)
    requires Counted(a, f, s, d, n) && Counted(b, f', s', d', n')
    ensures Counted(a + b, f + f', s + s', d + d', n + n')
  {
    SumConcat(a, b, IsFileSrc);
    SumConcat(a, b, IsContent);
  }

  lemma CountedOne(t: Token)
    ensures Sum([t], IsFileSrc) == IsFileSrc(t) && Sum([t], IsContent) == IsContent(t)
  {
    assert [t][1..] == [];
  }

  lemma {:induction false} LineTokensCount(lines: seq<Line>)
    ensures Counted(LineTokens(lines), 0, Sum(lines, SrcHeader), Sum(lines, DstHeader), Sum(lines, One))
  {
    if lines != [] {
      var front, l := lines[..|lines| - 1], lines[|lines| - 1];
      LineTokensCount(front);
      CountedOne(LineToken(l));
      CountedConcat(LineTokens(front), 0, Sum(front, SrcHeader), Sum(front, DstHeader), Sum(front, One),
                    [LineToken(l)], 0, SrcHeader(l), DstHeader(l), 1);
      SumAppend(front, l, SrcHeader);
      SumAppend(front, l, DstHeader);
      SumAppend(front, l, One);
      FrontAndLast(lines);
    }
  }

  lemma ChunkTokensCount(c: Chunk)
    ensures Counted(ChunkTokens(c), 0, InChunk(SrcHeader)(c), InChunk(DstHeader)(c), InChunk(One)(c))
  {
    CountedOne(Hunk(c.srcPos, c.dstPos));
    LineTokensCount(c.lines);
    CountedConcat([Hunk(c.srcPos, c.dstPos)], 0, 0, 0, 0,
                  LineTokens(c.lines), 0, Sum(c.lines, SrcHeader), Sum(c.lines, DstHeader), Sum(c.lines, One));
  }

  lemma {:induction false} ChunksTokensCount(chunks: seq<Chunk>)
    ensures Counted(ChunksTokens(chunks), 0, Sum(chunks, InChunk(SrcHeader)), Sum(chunks, InChunk(DstHeader)),
                    Sum(chunks, InChunk(One)))
  {
    if chunks != [] {
      var front, c := chunks[..|chunks| - 1], chunks[|chunks| - 1];
      ChunksTokensCount(front);
      ChunkTokensCount(c);
      CountedConcat(ChunksTokens(front), 0, Sum(front, InChunk(SrcHeader)), Sum(front, InChunk(DstHeader)),
                    Sum(front, InChunk(One)),
                    ChunkTokens(c), 0, InChunk(SrcHeader)(c), InChunk(DstHeader)(c), InChunk(One)(c));
      SumAppend(front, c, InChunk(SrcHeader));
      SumAppend(front, c, InChunk(DstHeader));
      SumAppend(front, c, InChunk(One));
      FrontAndLast(chunks);
    }
  }

  lemma TokensOfOneCount(p: Patch)
    ensures Counted(TokensOfOne(p), 1, InPatch(SrcHeader)(p), InPatch(DstHeader)(p), InPatch(One)(p))
  {
    CountedOne(FileSrc(p.src));
    CountedOne(FileDst(p.dst));
    CountedConcat([FileSrc(p.src)], 1, 0, 0, 0, [FileDst(p.dst)], 0, 0, 0, 0);
    assert [FileSrc(p.src)] + [FileDst(p.dst)] == [FileSrc(p.src), FileDst(p.dst)];
    ChunksTokensCount(p.chunks);
    CountedConcat([FileSrc(p.src), FileDst(p.dst)], 1, 0, 0, 0,
                  ChunksTokens(p.chunks), 0, InPatch(SrcHeader)(p), InPatch(DstHeader)(p), InPatch(One)(p));
  }

  lemma {:induction false} SetTokensCount(patches: seq<Patch>)
    ensures Counted(SetTokens(patches), |patches|, OverLines(patches, SrcHeader), OverLines(patches, DstHeader),
                    OverLines(patches, One))
  {
    if patches != [] {
      var front, p := patches[..|patches| - 1], patches[|patches| - 1];
      SetTokensCount(front);
      TokensOfOneCount(p);
      CountedConcat(SetTokens(front), |front|, OverLines(front, SrcHeader), OverLines(front, DstHeader),
                    OverLines(front, One),
                    TokensOfOne(p), 1, InPatch(SrcHeader)(p), InPatch(DstHeader)(p), InPatch(One)(p));
      SumAppend(front, p, InPatch(SrcHeader));
      SumAppend(front, p, InPatch(DstHeader));
      SumAppend(front, p, InPatch(One));
      FrontAndLast(patches);
    }
  }

  /** If no line counts, no line looks like a header. */
  lemma NoHeaders(patches: seq<Patch>)
    requires OverLines(patches, SrcHeader) == 0 && OverLines(patches, DstHeader) == 0
    ensures Plain(patches)
  {
    forall p, c, l | p in patches && c in p.chunks && l in c.lines ensures !LooksLikeHeader(l) {
      LineCounted(patches, p, c, l, SrcHeader);
      LineCounted(patches, p, c, l, DstHeader);
    }
  }

  lemma LineCounted(patches: seq<Patch>, p: Patch, c: Chunk, l: Line, f: Line -> nat)
    requires p in patches && c in p.chunks && l in c.lines
    ensures f(l) <= OverLines(patches, f)
  {
    var i :| 0 <= i < |patches| && patches[i] == p;
    var j :| 0 <= j < |p.chunks| && p.chunks[j] == c;
    var k :| 0 <= k < |c.lines| && c.lines[k] == l;
    SumAtLeast(c.lines, k, f);
    SumAtLeast(p.chunks, j, InChunk(f));
    SumAtLeast(patches, i, InPatch(f));
  }

  /**
   Main result, with its exact condition: for every patch set of single-line names and
   texts, parsing what is printed gives the set back if and only if no source-only text
   starts with "-- " and no destination-only text with "++ ".
   */
  lemma RoundTripIff(patches: seq<Patch>)
    requires Clean(patches)
    ensures Parse(Print(patches)) == Ok(patches) <==> Plain(patches)
  {
    TokensOfPrint(patches);
    if Plain(patches) {
      var cursor := ParsePrinted(patches);
    }
    if Parse(Print(patches)) == Ok(patches) {
      ParseCounts(START, SetTokens(patches));
      SetTokensCount(patches);
      NoHeaders(patches);
    }
  }

  // ----- what the parser returns

  ghost predicate Good(patches: seq<Patch>) {
    Clean(patches) && Plain(patches)
  }

  lemma ConsumeGood(s: Progress, t: Token)
    requires s.Valid() && Good(s.patches) && CleanToken(t) && Consume(s, t).Ok?
    ensures Good(Consume(s, t).value.patches)
  {
    var n := |s.patches|;
    match t
    case FileSrc(name) =>
    case FileDst(name) =>
      assert s.patches[n - 1] in s.patches;
      UpdateGood(s.patches, n - 1, s.patches[n - 1].(dst := name));
    case Hunk(a, b) =>
      var p := s.patches[n - 1];
      assert p in s.patches;
      UpdateGood(s.patches, n - 1, p.(chunks := p.chunks + [Chunk(a, b, [])]));
    case Content(l) =>
      AddLineGood(s.patches, s.cursor.patch, s.cursor.chunk, l);
    case Unmatched =>
  }

  lemma AddLineGood(patches: seq<Patch>, i: nat, j: nat, l: Line)
    requires i < |patches| && j < |patches[i].chunks| && Good(patches)
    requires NewlineFree(l.text) && !LooksLikeHeader(l)
    ensures Good(AddLine(patches, i, j, l))
  {
    var p := patches[i];
    var c := p.chunks[j];
    assert p in patches && c in p.chunks;
    var c' := c.(lines := c.lines + [l]);
    assert CleanChunk(c') && PlainChunk(c');
    forall d | d in p.chunks[j := c'] ensures CleanChunk(d) && PlainChunk(d) {
      assert d == c' || d in p.chunks;
    }
    UpdateGood(patches, i, p.(chunks := p.chunks[j := c']));
  }

  lemma UpdateGood(patches: seq<Patch>, i: nat, p: Patch)
    requires Good(patches) && i < |patches|
    requires CleanPatch(p) && PlainPatch(p)
    ensures Good(patches[i := p])
  {
    forall q | q in patches[i := p] ensures CleanPatch(q) && PlainPatch(q) {
      assert q == p || q in patches;
    }
  }

  lemma {:induction false} AbsorbGood(s: Progress, tokens: seq<Token>)
    requires s.Valid() && Good(s.patches) && Absorb(s, tokens).Ok?
    requires forall t :: t in tokens ==> CleanToken(t)
    ensures Good(Absorb(s, tokens).value.patches)
  {
    if tokens != [] {
      var front, x := tokens[..|tokens| - 1], tokens[|tokens| - 1];
      assert x in tokens;
      AbsorbGood(s, front);
      ConsumeGood(Absorb(s, front).value, x);
    }
  }

  lemma {:induction false} TokensClean(lines: seq<string>)
    ensures forall t :: t in Tokens(lines) ==> CleanToken(t)
  {
    if lines != [] {
      TokensClean(lines[..|lines| - 1]);
      TokenIsClean(lines[|lines| - 1]);
    }
  }

  /** Main result: whatever was parsed can be printed and parsed again without change. */
  lemma ParsedRoundTrips(lines: seq<string>)
    requires Parse(lines).Ok?
    ensures Clean(Parse(lines).value) && Plain(Parse(lines).value)
    ensures Parse(Print(Parse(lines).value)) == Parse(lines)
  {
    TokensClean(lines);
    AbsorbGood(START, Tokens(lines));
    RoundTripIff(Parse(lines).value);
  }

  // ----- through a text file

  ghost predicate FullLine(s: string) {
    s != "" && s[|s| - 1] == '\n' && NewlineFree(s[..|s| - 1])
  }

  lemma {:induction false} SplitFirst(before: string, body: string, rest: string)
    requires NewlineFree(body)
    ensures SplitFrom(before, body + "\n" + rest) == [before + body + "\n"] + SplitFrom("", rest)
    decreases |body|
  {
    var text := body + "\n" + rest;
    if body == "" {
      assert text[1..] == rest;
      assert before + body == before;
    } else {
      assert text[1..] == body[1..] + "\n" + rest;
      SplitFirst(before + [body[0]], body[1..], rest);
      assert before + [body[0]] + body[1..] == before + body;
    }
  }

  lemma {:induction false} SplitConcat(lines: seq<string>)
    requires forall x :: x in lines ==> FullLine(x)
    ensures SplitLines(Concat(lines)) == lines
  {
    if lines != [] {
      var x := lines[0];
      assert x in lines;
      SplitConcat(lines[1..]);
      assert x == x[..|x| - 1] + "\n";
      SplitFirst("", x[..|x| - 1], Concat(lines[1..]));
      assert "" + x[..|x| - 1] + "\n" == x;
    }
  }

  /** Pieces of a text: full lines, but the last of them may lack its newline. */
  ghost predicate AreLines(lines: seq<string>) {
    forall k :: 0 <= k < |lines| ==>
      lines[k] != "" && (FullLine(lines[k]) || (k == |lines| - 1 && NewlineFree(lines[k])))
  }

  lemma AreLinesCons(first: string, rest: seq<string>)
    requires FullLine(first) && AreLines(rest)
    ensures AreLines([first] + rest) && Concat([first] + rest) == first + Concat(rest)
  {
    assert ([first] + rest)[1..] == rest;
  }

  lemma {:induction false} SplitFromIs(line: string, text: string)
    requires NewlineFree(line)
    ensures AreLines(SplitFrom(line, text)) && Concat(SplitFrom(line, text)) == line + text
    decreases |text|
  {
    if text == "" {
      assert line + text == line;
      assert line != "" ==> [line][1..] == [] && line + Concat([]) == line;
    } else if text[0] == '\n' {
      SplitFromIs("", text[1..]);
      FullLineOf(line);
      AreLinesCons(line + "\n", SplitFrom("", text[1..]));
      assert "" + text[1..] == text[1..] && text == "\n" + text[1..];
      Regroup(line, "\n", text[1..]);
    } else {
      SplitFromIs(line + [text[0]], text[1..]);
      assert text == [text[0]] + text[1..];
      Regroup(line, [text[0]], text[1..]);
    }
  }

  /** Main result: splitting a text at its newlines loses nothing, also without a last newline. */
  lemma SplitLinesIs(text: string)
    ensures Concat(SplitLines(text)) == text && AreLines(SplitLines(text))
  {
    SplitFromIs("", text);
    assert "" + text == text;
  }

  lemma FullLineOf(body: string)
    requires NewlineFree(body)
    ensures FullLine(body + "\n")
  {
    assert (body + "\n")[..|body|] == body;
  }

  lemma FieldClean(n: nat, literal: string, tail: string)
    requires NewlineFree(literal) && FullLine(tail)
    ensures FullLine(Field(n, literal, tail))
  {
    var s := Field(n, literal, tail);
    forall k | 0 <= k < |s| - 1 ensures s[k] != '\n' {
      if k < |Decimal(n)| {
        assert s[k] in Decimal(n);
      } else if k < |Decimal(n)| + |literal| {
        assert s[k] == literal[k - |Decimal(n)|];
      } else {
        assert s[k] == tail[..|tail| - 1][k - |Decimal(n)| - |literal|];
      }
    }
  }

  lemma HunkHeaderIsFullLine(c: Chunk)
    ensures FullLine(HunkHeader(c))
  {
    FieldClean(DstLen(c.lines), " @@", "\n");
    var s4 := Field(DstLen(c.lines), " @@", "\n");
    FieldClean(c.dstPos, ",", s4);
    var s3 := Field(c.dstPos, ",", s4);
    FieldClean(SrcLen(c.lines), " +", s3);
    var s2 := Field(SrcLen(c.lines), " +", s3);
    FieldClean(c.srcPos, ",", s2);
    var s1 := Field(c.srcPos, ",", s2);
    assert ("@@ -" + s1)[..|s1| + 3] == "@@ -" + s1[..|s1| - 1];
  }

  lemma {:induction false} PrintedLinesFull(lines: seq<Line>)
    requires forall l :: l in lines ==> NewlineFree(l.text)
    ensures forall x :: x in PrintLines(lines) ==> FullLine(x)
  {
    if lines != [] {
      var l := lines[|lines| - 1];
      assert l in lines;
      PrintedLinesFull(lines[..|lines| - 1]);
      FullLineOf((match l.kind case Src => "-" case Dst => "+" case Both => " ") + l.text);
    }
  }

  lemma {:induction false} PrintedChunksFull(chunks: seq<Chunk>)
    requires forall c :: c in chunks ==> CleanChunk(c)
    ensures forall x :: x in PrintChunks(chunks) ==> FullLine(x)
  {
    if chunks != [] {
      var c := chunks[|chunks| - 1];
      assert c in chunks;
      PrintedChunksFull(chunks[..|chunks| - 1]);
      HunkHeaderIsFullLine(c);
      PrintedLinesFull(c.lines);
    }
  }

  lemma {:induction false} PrintedFull(patches: seq<Patch>)
    requires Clean(patches)
    ensures forall x :: x in Print(patches) ==> FullLine(x)
  {
    if patches != [] {
      var p := patches[|patches| - 1];
      assert p in patches;
      PrintedFull(patches[..|patches| - 1]);
      FullLineOf("--- " + p.src);
      FullLineOf("+++ " + p.dst);
      PrintedChunksFull(p.chunks);
    }
  }

  /** Main result: the round trip also holds through the text of a file. */
  lemma FileRoundTrip(patches: seq<Patch>)
    requires Clean(patches)
    ensures SplitLines(Concat(Print(patches))) == Print(patches)
    ensures Parse(SplitLines(Concat(Print(patches)))) == Ok(patches) <==> Plain(patches)
  {
    PrintedFull(patches);
    SplitConcat(Print(patches));
    RoundTripIff(patches);
  }
}
