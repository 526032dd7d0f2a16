/**
 What the whitespace pass does to the round trip: its result can be printed and parsed back
 unless the pass made a destination line that reads like a file header.
 */
module PatchWhitespaceRoundTrip {
  import opened PatchText
  import opened PatchTokens
  import opened PatchRoundTrip
  import opened PatchWhitespace

  /** A destination-only text that the pass turns into the start of a file header. */
  ghost predicate BecomesHeader(l: Line, l': Line) {
    l.kind == Dst && l.text == "++" && l'.text == "++ "
  }

  /** Only a destination text of two plus signs can come to look like a header. */
  lemma FateOfPlainLine(lines: seq<Line>, lines': seq<Line>, src: seq<nat>, dst: seq<nat>, m: nat)
    requires m < |lines| == |lines'|
    requires forall i :: 0 <= i < |src| ==> src[i] < |lines|
    requires forall i :: 0 <= i < |dst| ==> dst[i] < |lines| && lines[dst[i]].IsDst()
    requires LineFate(lines, lines', src, dst, m) && !LooksLikeHeader(lines[m])
    ensures LooksLikeHeader(lines'[m]) <==> BecomesHeader(lines[m], lines'[m])
  {
    var t, t' := lines[m].text, lines'[m].text;
    if t' != t {
      assert |t'| == |t| + 1 && t'[..|t|] == t;
      if LooksLikeHeader(lines'[m]) {
        assert t'[0] == '+' && t'[1] == '+' && t'[2] == ' ';
        assert t == "++" && t' == "++ ";
      }
    }
  }

  lemma ChunkStaysPlain(c: Chunk, c': Chunk)
    requires ChunkShape(c, c') && PlainChunk(c)
    ensures PlainChunk(c') <==> forall m :: 0 <= m < |c.lines| ==> !BecomesHeader(c.lines[m], c'.lines[m])
  {
    forall m: nat | m < |c.lines|
      ensures LooksLikeHeader(c'.lines[m]) <==> BecomesHeader(c.lines[m], c'.lines[m])
    {
      assert c.lines[m] in c.lines;
      FateOfPlainLine(c.lines, c'.lines, SrcLines(c.lines), DstLines(c.lines), m);
    }
    if forall m :: 0 <= m < |c.lines| ==> !BecomesHeader(c.lines[m], c'.lines[m]) {
      forall l | l in c'.lines ensures !LooksLikeHeader(l) {
        var m :| 0 <= m < |c'.lines| && c'.lines[m] == l;
        assert !BecomesHeader(c.lines[m], c'.lines[m]);
      }
    } else {
      var m :| 0 <= m < |c.lines| && BecomesHeader(c.lines[m], c'.lines[m]);
      assert c'.lines[m] in c'.lines;
    }
  }

  /** The comparison of rank `j` will turn a destination-only "++" into "++ ". */
  predicate MakesHeader(c: Chunk, j: nat)
    requires j < Ranks(c)
  {
    c.lines[DstLines(c.lines)[j]] == Line(Dst, "++") && ComparedText(c, j) == "++ "
  }

  ghost predicate MakesNoHeader(c: Chunk) {
    forall j :: 0 <= j < Ranks(c) ==> !MakesHeader(c, j)
  }

  lemma PassChunkStaysPlain(c: Chunk)
    requires CleanChunk(c) && PlainChunk(c)
    ensures PlainChunk(PassChunk(c).0) <==> MakesNoHeader(c)
  {
    var c', dst := PassChunk(c).0, DstLines(c.lines);
    PassChunkShape(c);
    ChunkStaysPlain(c, c');
    forall m | 0 <= m < |c.lines| && BecomesHeader(c.lines[m], c'.lines[m])
      ensures exists j :: 0 <= j < Ranks(c) && MakesHeader(c, j)
    {
      if forall j :: 0 <= j < Ranks(c) ==> dst[j] != m {
        PassChunkUnranked(c, m);
        assert false;
      }
      var j :| 0 <= j < Ranks(c) && dst[j] == m;
      PassChunkAtRank(c, j);
      ComparedTextClean(c, j);
      RestoredToHeader(ComparedText(c, j));
      assert MakesHeader(c, j);
    }
    forall j | 0 <= j < Ranks(c) && MakesHeader(c, j)
      ensures exists m :: 0 <= m < |c.lines| && BecomesHeader(c.lines[m], c'.lines[m])
    {
      PassChunkAtRank(c, j);
      RestoredToHeader("++ ");
      assert BecomesHeader(c.lines[dst[j]], c'.lines[dst[j]]);
    }
  }

  lemma RestoredToHeader(source: string)
    requires NewlineFree(source)
    ensures Restored("++", source) == "++ " <==> source == "++ "
  {
    RestoredIs("++", source);
    assert "++" + " " == "++ " && ("++" + "\t")[2] == '\t' && "++ "[2] == ' ';
  }

  /**
   Main result, with its exact condition: the result of the pass over a parsed patch set
   can be printed and parsed back if and only if in no chunk that the pass reaches a
   destination-only "++" has the rank of a source line that reads "++ " by then.
   */
  lemma PassRoundTripsIff(patches: seq<Patch>)
    requires Clean(patches) && Plain(patches)
    ensures var passed := Pass(patches).0;
            Parse(Print(passed)) == Ok(passed) <==>
            forall i, j :: 0 <= i < |patches| && 0 <= j < |patches[i].chunks| && Reached(patches, i, j) ==>
              MakesNoHeader(patches[i].chunks[j])
  {
    var passed := Pass(patches).0;
    forall i: nat | i < |patches| ensures CleanPatch(passed[i]) && |passed[i].chunks| == |patches[i].chunks| {
      PassKeepsShape(patches, i);
    }
    RoundTripIff(passed);
    forall i, j | 0 <= i < |patches| && 0 <= j < |patches[i].chunks|
      ensures PlainChunk(passed[i].chunks[j]) <==> Reached(patches, i, j) ==> MakesNoHeader(patches[i].chunks[j])
    {
      assert patches[i] in patches && patches[i].chunks[j] in patches[i].chunks;
      PassAt(patches, i, j);
      PassChunkStaysPlain(patches[i].chunks[j]);
    }
    PlainByIndex(passed);
  }

  lemma PlainByIndex(patches: seq<Patch>)
    ensures Plain(patches) <==>
            forall i, j :: 0 <= i < |patches| && 0 <= j < |patches[i].chunks| ==> PlainChunk(patches[i].chunks[j])
  {
    if Plain(patches) {
      forall i, j | 0 <= i < |patches| && 0 <= j < |patches[i].chunks| ensures PlainChunk(patches[i].chunks[j]) {
        assert patches[i] in patches && patches[i].chunks[j] in patches[i].chunks;
      }
    }
  }

  /** A source text "++ " paired with the destination text "++". */
  function Example(): seq<Patch> {
    [Patch("a", "b", [Chunk(1, 1, [Line(Src, "++ "), Line(Dst, "++")])])]
  }

  lemma ExampleIsPlain()
    ensures Clean(Example()) && Plain(Example())
  {
    var l0, l1 := Line(Src, "++ "), Line(Dst, "++");
    assert l0.text[0] == '+' && l1.text[0] == '+';
    assert !LooksLikeHeader(l0) && !LooksLikeHeader(l1);
    var c := Chunk(1, 1, [l0, l1]);
    assert CleanChunk(c) && PlainChunk(c);
    assert CleanPatch(Example()[0]) && PlainPatch(Example()[0]);
  }

  lemma ExampleMakesAHeader()
    ensures Reached(Example(), 0, 0) && !MakesNoHeader(Example()[0].chunks[0])
  {
    var l0, l1 := Line(Src, "++ "), Line(Dst, "++");
    var c := Example()[0].chunks[0];
    RanksOfPair(l0, l1);
    assert MakesHeader(c, 0);
  }

  /** The condition can fail: for these lines what the pass returns does not survive printing. */
  lemma PassCanMakeAHeader() returns (lines: seq<string>)
    ensures Parse(lines).Ok?
    ensures var passed := Pass(Parse(lines).value).0;
            Parse(Print(passed)) != Ok(passed)
  {
    lines := Print(Example());
    ExampleIsPlain();
    RoundTripIff(Example());
    PassRoundTripsIff(Example());
    ExampleMakesAHeader();
  }
}
