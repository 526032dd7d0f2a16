/**
 What the parser builds, read off its tokens without following its state: which chunk a
 content line goes to, which patch a chunk belongs to, and when there is a result at all.
 */
module PatchStructure {
  import opened Sequences
  import opened PatchText

  predicate StartsFile(t: Token) {
    t.FileSrc?
  }

  predicate StartsHunk(t: Token) {
    t.Hunk?
  }

  function Count(tokens: seq<Token>, p: Token -> bool): nat {
    if tokens == [] then 0
    else Count(tokens[..|tokens| - 1], p) + (if p(tokens[|tokens| - 1]) then 1 else 0)
  }

  /** The content lines among some tokens. */
  function Contents(tokens: seq<Token>): seq<Line> {
    if tokens == [] then []
    else
      var t := tokens[|tokens| - 1];
      Contents(tokens[..|tokens| - 1]) + (if t.Content? then [t.line] else [])
  }

  /** The last name given to the destination, or none. */
  function LastDst(tokens: seq<Token>): string {
    if tokens == [] then ""
    else
      var t := tokens[|tokens| - 1];
      if t.FileDst? then t.name else LastDst(tokens[..|tokens| - 1])
  }

  /** The chunks of a patch set one after the other. */
  function AllChunks(patches: seq<Patch>): seq<Chunk> {
    if patches == [] then [] else AllChunks(patches[..|patches| - 1]) + patches[|patches| - 1].chunks
  }

  // ----- all chunks of the set

  /** The chunks that hunk headers and content lines make, whatever the files. */
  function ChunksRead(tokens: seq<Token>): seq<Chunk> {
    if tokens == [] then []
    else
      var cs := ChunksRead(tokens[..|tokens| - 1]);
      match tokens[|tokens| - 1]
      case Hunk(srcPos, dstPos) => cs + [Chunk(srcPos, dstPos, [])]
      case Content(l) =>
        if cs == [] then cs
        else
          var last := |cs| - 1;
          cs[last := cs[last].(lines := cs[last].lines + [l])]
      case _ => cs
  }

  /** The cursor is at the last chunk of the set. */
  ghost predicate AtLastChunk(s: Progress) {
    s.Valid() &&
    match s.cursor
    case Nowhere => forall k :: 0 <= k < |s.patches| ==> s.patches[k].chunks == []
    case At(i, j) =>
      && j == |s.patches[i].chunks| - 1
      && forall k :: i < k < |s.patches| ==> s.patches[k].chunks == []
  }

  lemma {:induction false} AllChunksUpTo(patches: seq<Patch>, i: nat)
    requires i <= |patches| && forall k :: i <= k < |patches| ==> patches[k].chunks == []
    ensures AllChunks(patches) == AllChunks(patches[..i])
  {
    if i == |patches| {
      assert patches[..i] == patches;
    } else {
      var n := |patches| - 1;
      AllChunksUpTo(patches[..n], i);
      assert patches[..n][..i] == patches[..i];
    }
  }

  /** With no chunks after patch `i`, the last chunks are those of that patch. */
  lemma AllChunksAt(patches: seq<Patch>, i: nat)
    requires i < |patches| && forall k :: i < k < |patches| ==> patches[k].chunks == []
    ensures AllChunks(patches) == AllChunks(patches[..i]) + patches[i].chunks
  {
    AllChunksUpTo(patches, i + 1);
    TakeOneMore(patches, i);
    AllChunksAppend(patches[..i], patches[i]);
  }

  lemma AllChunksAppend(patches: seq<Patch>, p: Patch)
    ensures AllChunks(patches + [p]) == AllChunks(patches) + p.chunks
  {
    DropAppended(patches, p);
  }

  lemma AllChunksReplaced(patches: seq<Patch>, i: nat, p: Patch)
    requires i < |patches| && forall k :: i < k < |patches| ==> patches[k].chunks == []
    ensures AllChunks(patches[i := p]) == AllChunks(patches[..i]) + p.chunks
  {
    AllChunksAt(patches[i := p], i);
    assert patches[i := p][..i] == patches[..i];
  }

  lemma ConsumeChunks(s: Progress, token: Token, tokens: seq<Token>)
    requires AtLastChunk(s) && Consume(s, token).Ok? && AllChunks(s.patches) == ChunksRead(tokens)
    ensures AtLastChunk(Consume(s, token).value)
    ensures AllChunks(Consume(s, token).value.patches) == ChunksRead(tokens + [token])
  {
    DropAppended(tokens, token);
    match token
    case FileSrc(name) =>
      AllChunksAppend(s.patches, Patch(name, "", []));
      assert AllChunks(s.patches) + [] == AllChunks(s.patches);
    case FileDst(name) => ConsumeDst(s, name);
    case Hunk(a, b) => ConsumeHunk(s, a, b);
    case Content(l) => ConsumeLine(s, l, ChunksRead(tokens));
  }

  lemma ConsumeDst(s: Progress, name: string)
    requires AtLastChunk(s) && s.patches != []
    ensures var n := |s.patches| - 1;
            var t := s.(patches := s.patches[n := s.patches[n].(dst := name)]);
            AtLastChunk(t) && AllChunks(t.patches) == AllChunks(s.patches)
  {
    var n := |s.patches| - 1;
    AllChunksAt(s.patches, n);
    AllChunksReplaced(s.patches, n, s.patches[n].(dst := name));
  }

  lemma ConsumeHunk(s: Progress, a: nat, b: nat)
    requires AtLastChunk(s) && s.patches != []
    ensures AtLastChunk(Consume(s, Hunk(a, b)).value)
    ensures AllChunks(Consume(s, Hunk(a, b)).value.patches) == AllChunks(s.patches) + [Chunk(a, b, [])]
  {
    var n := |s.patches| - 1;
    AllChunksAt(s.patches, n);
    AllChunksReplaced(s.patches, n, s.patches[n].(chunks := s.patches[n].chunks + [Chunk(a, b, [])]));
    Regroup(AllChunks(s.patches[..n]), s.patches[n].chunks, [Chunk(a, b, [])]);
  }

  lemma ConsumeLine(s: Progress, l: Line, cs: seq<Chunk>)
    requires AtLastChunk(s) && s.cursor.At? && AllChunks(s.patches) == cs
    ensures AtLastChunk(s.(patches := AddLine(s.patches, s.cursor.patch, s.cursor.chunk, l)))
    ensures cs != []
    ensures AllChunks(AddLine(s.patches, s.cursor.patch, s.cursor.chunk, l))
            == cs[|cs| - 1 := cs[|cs| - 1].(lines := cs[|cs| - 1].lines + [l])]
  {
    var i, j := s.cursor.patch, s.cursor.chunk;
    var p := s.patches[i];
    var c := p.chunks[j].(lines := p.chunks[j].lines + [l]);
    AllChunksAt(s.patches, i);
    AllChunksReplaced(s.patches, i, p.(chunks := p.chunks[j := c]));
    assert AllChunks(s.patches[..i]) + p.chunks[j := c] == cs[|cs| - 1 := c];
  }

  lemma {:induction false} AbsorbChunks(tokens: seq<Token>)
    requires Absorb(START, tokens).Ok?
    ensures AtLastChunk(Absorb(START, tokens).value)
    ensures AllChunks(Absorb(START, tokens).value.patches) == ChunksRead(tokens)
  {
    if tokens != [] {
      var front := tokens[..|tokens| - 1];
      AbsorbChunks(front);
      ConsumeChunks(Absorb(START, front).value, tokens[|tokens| - 1], front);
      FrontAndLast(tokens);
    }
  }

  // ----- one chunk

  lemma {:induction false} ChunksCount(tokens: seq<Token>)
    ensures |ChunksRead(tokens)| == Count(tokens, StartsHunk)
  {
    if tokens != [] {
      ChunksCount(tokens[..|tokens| - 1]);
    }
  }

  /** Without another hunk header, content goes to the last chunk. */
  lemma {:induction false} ChunkFills(tokens: seq<Token>, body: seq<Token>)
    requires ChunksRead(tokens) != [] && forall t :: t in body ==> !t.Hunk?
    ensures var cs := ChunksRead(tokens);
            var last := |cs| - 1;
            ChunksRead(tokens + body) == cs[last := cs[last].(lines := cs[last].lines + Contents(body))]
  {
    var cs := ChunksRead(tokens);
    var last := |cs| - 1;
    if body == [] {
      assert tokens + body == tokens && cs[last].lines + [] == cs[last].lines;
    } else {
      var front, t := body[..|body| - 1], body[|body| - 1];
      FrontOfSum(tokens, body);
      assert t in body;
      ChunkFills(tokens, front);
      var more := if t.Content? then [t.line] else [];
      Regroup(cs[last].lines, Contents(front), more);
      var filled := cs[last].(lines := cs[last].lines + Contents(front));
      var c := filled.(lines := filled.lines + more);
      assert filled.lines + [] == filled.lines;
      assert cs[last := filled][last := c] == cs[last := c];
    }
  }

  lemma ChunksStayOne(cs: seq<Chunk>, tokens: seq<Token>, t: Token, started: bool)
    requires cs <= ChunksRead(tokens)
    requires if started then |ChunksRead(tokens)| > |cs| else t.Hunk?
    ensures cs <= ChunksRead(tokens + [t]) && |ChunksRead(tokens + [t])| > |cs|
  {
    DropAppended(tokens, t);
    var more := ChunksRead(tokens + [t]);
    assert forall k :: 0 <= k < |cs| ==> more[k] == cs[k];
    assert more[..|cs|] == cs;
  }

  /** From the next hunk header on, the chunks so far stay as they are. */
  lemma {:induction false} ChunksStay(tokens: seq<Token>, after: seq<Token>)
    requires after == [] || after[0].Hunk?
    ensures ChunksRead(tokens) <= ChunksRead(tokens + after)
    ensures after != [] ==> |ChunksRead(tokens + after)| > |ChunksRead(tokens)|
  {
    if after == [] {
      assert tokens + after == tokens;
    } else {
      var n := |after| - 1;
      FrontOfSum(tokens, after);
      ChunksStay(tokens, after[..n]);
      ChunksStayOne(ChunksRead(tokens), tokens + after[..n], after[n], n > 0);
      assert tokens + after == tokens + after[..n] + [after[n]];
    }
  }

  /**
   Main result: a chunk holds the positions of its hunk header and the content lines from
   there to the next one, also across the headers of further files.
   */
  lemma HunkCollects(before: seq<Token>, srcPos: nat, dstPos: nat, body: seq<Token>, after: seq<Token>)
    requires forall t :: t in body ==> !t.Hunk?
    requires after == [] || after[0].Hunk?
    requires Absorb(START, before + [Hunk(srcPos, dstPos)] + body + after).Ok?
    ensures var chunks := AllChunks(Absorb(START, before + [Hunk(srcPos, dstPos)] + body + after).value.patches);
            var k := Count(before, StartsHunk);
            k < |chunks| && chunks[k] == Chunk(srcPos, dstPos, Contents(body))
  {
    var upTo := before + [Hunk(srcPos, dstPos)];
    DropAppended(before, Hunk(srcPos, dstPos));
    ChunksCount(before);
    ChunkFills(upTo, body);
    ChunksStay(upTo + body, after);
    AbsorbChunks(upTo + body + after);
    assert [] + Contents(body) == Contents(body);
    assert ChunksRead(upTo + body)[|ChunksRead(before)|] == Chunk(srcPos, dstPos, Contents(body));
  }

  // ----- one patch

  datatype Head = Head(src: string, dst: string, chunks: nat)

  function HeadOf(p: Patch): Head {
    Head(p.src, p.dst, |p.chunks|)
  }

  /** The names and numbers of chunks that headers make, whatever the content. */
  function HeadsRead(tokens: seq<Token>): seq<Head> {
    if tokens == [] then []
    else
      var hs := HeadsRead(tokens[..|tokens| - 1]);
      var last := |hs| - 1;
      match tokens[|tokens| - 1]
      case FileSrc(name) => hs + [Head(name, "", 0)]
      case FileDst(name) => if hs == [] then hs else hs[last := hs[last].(dst := name)]
      case Hunk(_, _) => if hs == [] then hs else hs[last := hs[last].(chunks := hs[last].chunks + 1)]
      case _ => hs
  }

  ghost predicate HeadsAre(patches: seq<Patch>, hs: seq<Head>) {
    |patches| == |hs| && forall i :: 0 <= i < |hs| ==> HeadOf(patches[i]) == hs[i]
  }

  lemma {:induction false} AbsorbHeads(tokens: seq<Token>)
    requires Absorb(START, tokens).Ok?
    ensures HeadsAre(Absorb(START, tokens).value.patches, HeadsRead(tokens))
  {
    if tokens != [] {
      var front := tokens[..|tokens| - 1];
      AbsorbHeads(front);
      ConsumeHeads(Absorb(START, front).value, tokens[|tokens| - 1], front);
      FrontAndLast(tokens);
    }
  }

  lemma ConsumeHeads(s: Progress, token: Token, tokens: seq<Token>)
    requires s.Valid() && Consume(s, token).Ok? && HeadsAre(s.patches, HeadsRead(tokens))
    ensures HeadsAre(Consume(s, token).value.patches, HeadsRead(tokens + [token]))
  {
    DropAppended(tokens, token);
  }

  lemma {:induction false} HeadsCount(tokens: seq<Token>)
    ensures |HeadsRead(tokens)| == Count(tokens, StartsFile)
  {
    if tokens != [] {
      HeadsCount(tokens[..|tokens| - 1]);
    }
  }

  lemma {:induction false} HeadFills(tokens: seq<Token>, body: seq<Token>, name: string)
    requires HeadsRead(tokens) != [] && HeadsRead(tokens)[|HeadsRead(tokens)| - 1] == Head(name, "", 0)
    requires forall t :: t in body ==> !t.FileSrc?
    ensures var hs := HeadsRead(tokens);
            HeadsRead(tokens + body) == hs[|hs| - 1 := Head(name, LastDst(body), Count(body, StartsHunk))]
  {
    if body == [] {
      assert tokens + body == tokens;
    } else {
      FrontOfSum(tokens, body);
      assert body[|body| - 1] in body;
      HeadFills(tokens, body[..|body| - 1], name);
    }
  }

  lemma {:induction false} HeadsStay(tokens: seq<Token>, after: seq<Token>)
    requires after == [] || after[0].FileSrc?
    ensures HeadsRead(tokens) <= HeadsRead(tokens + after)
    ensures after != [] ==> |HeadsRead(tokens + after)| > |HeadsRead(tokens)|
  {
    if after == [] {
      assert tokens + after == tokens;
    } else {
      FrontOfSum(tokens, after);
      HeadsStay(tokens, after[..|after| - 1]);
    }
  }

  /**
   Main result: a patch has the name of its header, the last destination given before the
   next file, if any, and as many chunks as there are hunk headers up to there.
   */
  lemma FileCollects(before: seq<Token>, name: string, body: seq<Token>, after: seq<Token>)
    requires forall t :: t in body ==> !t.FileSrc?
    requires after == [] || after[0].FileSrc?
    requires Absorb(START, before + [FileSrc(name)] + body + after).Ok?
    ensures var patches := Absorb(START, before + [FileSrc(name)] + body + after).value.patches;
            var i := Count(before, StartsFile);
            && i < |patches| && patches[i].src == name && patches[i].dst == LastDst(body)
            && |patches[i].chunks| == Count(body, StartsHunk)
  {
    var upTo := before + [FileSrc(name)];
    DropAppended(before, FileSrc(name));
    HeadsCount(before);
    HeadFills(upTo, body, name);
    HeadsStay(upTo + body, after);
    AbsorbHeads(upTo + body + after);
    var i := Count(before, StartsFile);
    assert HeadsRead(upTo + body)[i] == HeadsRead(upTo + body + after)[i];
  }

  // ----- when there is a result

  /** The token is one, and what it needs has come before it. */
  ghost predicate Placed(tokens: seq<Token>, k: nat)
    requires k < |tokens|
  {
    match tokens[k]
    case FileSrc(_) => true
    case FileDst(_) => exists i :: 0 <= i < k && tokens[i].FileSrc?
    case Hunk(_, _) => exists i :: 0 <= i < k && tokens[i].FileSrc?
    case Content(_) => exists i :: 0 <= i < k && tokens[i].Hunk?
    case Unmatched => false
  }

  lemma {:induction false} CountIff(tokens: seq<Token>, p: Token -> bool)
    ensures Count(tokens, p) > 0 <==> exists i :: 0 <= i < |tokens| && p(tokens[i])
  {
    if tokens != [] {
      CountIff(tokens[..|tokens| - 1], p);
    }
  }

  /** Whether the next token can be consumed, after tokens that could. */
  lemma ConsumeIff(tokens: seq<Token>, s: Progress)
    requires tokens != [] && Absorb(START, tokens[..|tokens| - 1]) == Ok(s)
    ensures Consume(s, tokens[|tokens| - 1]).Ok? <==> Placed(tokens, |tokens| - 1)
  {
    var front := tokens[..|tokens| - 1];
    AbsorbChunks(front);
    AbsorbHeads(front);
    ChunksCount(front);
    HeadsCount(front);
    CountIff(front, StartsHunk);
    CountIff(front, StartsFile);
    CursorIff(s);
    assert forall i :: 0 <= i < |front| ==> front[i] == tokens[i];
  }

  lemma CursorIff(s: Progress)
    requires AtLastChunk(s)
    ensures s.cursor.At? <==> AllChunks(s.patches) != []
  {
    if s.cursor.At? {
      AllChunksAt(s.patches, s.cursor.patch);
    } else {
      AllChunksUpTo(s.patches, 0);
    }
  }

  /** Main result: there is a patch for each file header, and a chunk for each hunk header. */
  lemma PartsCounted(tokens: seq<Token>)
    requires Absorb(START, tokens).Ok?
    ensures |Absorb(START, tokens).value.patches| == Count(tokens, StartsFile)
    ensures |AllChunks(Absorb(START, tokens).value.patches)| == Count(tokens, StartsHunk)
  {
    AbsorbHeads(tokens);
    HeadsCount(tokens);
    AbsorbChunks(tokens);
    ChunksCount(tokens);
  }

  /**
   Main result, with its exact condition: there is a result if and only if every line is
   some token, destinations and hunks come after a file header, and content after a hunk.
   */
  lemma {:induction false} ParseOkIff(tokens: seq<Token>)
    ensures Absorb(START, tokens).Ok? <==> forall k :: 0 <= k < |tokens| ==> Placed(tokens, k)
  {
    if tokens != [] {
      var n := |tokens| - 1;
      ParseOkIff(tokens[..n]);
      forall k | 0 <= k < n ensures Placed(tokens[..n], k) <==> Placed(tokens, k) {
        assert forall i :: 0 <= i < n ==> tokens[..n][i] == tokens[i];
      }
      if Absorb(START, tokens[..n]).Ok? {
        ConsumeIff(tokens, Absorb(START, tokens[..n]).value);
      }
    }
  }
}
