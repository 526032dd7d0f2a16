/**
 What the parser makes of each printed line.
 */
module PatchTokens {
  import opened Options
  import opened PatchText
  import opened Sequences
  import opened Sums

  predicate NewlineFree(s: string) {
    '\n' !in s
  }

  /** The content lines that read like a file header when printed. */
  predicate LooksLikeHeader(l: Line) {
    (l.kind == Src && "-- " <= l.text) || (l.kind == Dst && "++ " <= l.text)
  }

  lemma MatchPrinted(prefix: string, t: string)
    requires NewlineFree(t)
    ensures Match(prefix + t + "\n", prefix) == Some(t)
  {
    var s := prefix + t + "\n";
    assert s == prefix + (t + "\n");
    assert s[|prefix|..] == t + "\n";
    assert (t + "\n")[..|t|] == t;
  }

  lemma NoMatch(s: string, prefix: string, i: nat)
    requires i < |prefix| && (i < |s| ==> s[i] != prefix[i])
    ensures After(s, prefix) == None && Match(s, prefix) == None
  {
  }

  lemma NoHunk(s: string)
    requires s != "" && s[0] != '@'
    ensures MatchHunk(s) == None
  {
    NoMatch(s, "@@ -", 0);
  }

  /** After the marker, a printed text reads like a file header exactly if it starts like one. */
  lemma HeaderPrefix(marker: char, t: string)
    requires marker != ' '
    ensures [marker, marker, marker, ' '] <= [marker] + t + "\n" <==> [marker, marker, ' '] <= t
  {
    var s, header := [marker] + t + "\n", [marker, marker, marker, ' '];
    if header <= s {
      assert s[1] == marker && s[2] == marker && s[3] == ' ';
      assert |t| >= 3;
      assert t[0] == s[1] && t[1] == s[2] && t[2] == s[3];
    }
    if [marker, marker, ' '] <= t {
      assert t[0] == marker && t[1] == marker && t[2] == ' ';
      assert s[0] == marker && s[1] == t[0] && s[2] == t[1] && s[3] == t[2];
    }
  }

  lemma TokenOfFileSrc(name: string)
    requires NewlineFree(name)
    ensures Tokenize("--- " + name + "\n") == FileSrc(name)
  {
    MatchPrinted("--- ", name);
  }

  lemma TokenOfFileDst(name: string)
    requires NewlineFree(name)
    ensures Tokenize("+++ " + name + "\n") == FileDst(name)
  {
    MatchPrinted("+++ ", name);
    NoMatch("+++ " + name + "\n", "--- ", 0);
  }

  lemma TokenOfSrcLine(t: string)
    requires NewlineFree(t)
    ensures Tokenize("-" + t + "\n") == if "-- " <= t then FileSrc(t[3..]) else Content(Line(Src, t))
  {
    HeaderPrefix('-', t);
    if "-- " <= t {
      assert t == "-- " + t[3..];
      assert "-" + t + "\n" == "--- " + t[3..] + "\n";
      TokenOfFileSrc(t[3..]);
    } else {
      var s := "-" + t + "\n";
      NoMatch(s, "+++ ", 0);
      NoHunk(s);
      MatchPrinted("-", t);
    }
  }

  lemma TokenOfDstLine(t: string)
    requires NewlineFree(t)
    ensures Tokenize("+" + t + "\n") == if "++ " <= t then FileDst(t[3..]) else Content(Line(Dst, t))
  {
    HeaderPrefix('+', t);
    if "++ " <= t {
      assert t == "++ " + t[3..];
      assert "+" + t + "\n" == "+++ " + t[3..] + "\n";
      TokenOfFileDst(t[3..]);
    } else {
      var s := "+" + t + "\n";
      NoMatch(s, "--- ", 0);
      NoMatch(s, "-", 0);
      NoHunk(s);
      MatchPrinted("+", t);
    }
  }

  lemma TokenOfBothLine(t: string)
    requires NewlineFree(t)
    ensures Tokenize(" " + t + "\n") == Content(Line(Both, t))
  {
    var s := " " + t + "\n";
    NoMatch(s, "--- ", 0);
    NoMatch(s, "+++ ", 0);
    NoHunk(s);
    NoMatch(s, "-", 0);
    NoMatch(s, "+", 0);
    MatchPrinted(" ", t);
  }

  /** The token a printed content line is read as. */
  function LineToken(l: Line): Token {
    if !LooksLikeHeader(l) then Content(l)
    else if l.kind == Src then FileSrc(l.text[3..]) else FileDst(l.text[3..])
  }

  lemma TokenOfLine(l: Line)
    requires NewlineFree(l.text)
    ensures Tokenize(LineText(l)) == LineToken(l)
  {
    match l.kind
    case Src => TokenOfSrcLine(l.text);
    case Dst => TokenOfDstLine(l.text);
    case Both => TokenOfBothLine(l.text);
  }

  // ----- hunk headers

  lemma {:induction false} NumberOf(digits: string, rest: string)
    requires digits != "" && forall c :: c in digits ==> IsDigit(c)
    requires rest != "" && !IsDigit(rest[0])
    ensures Number(digits + rest) == Some((digits, rest))
  {
    var s := digits + rest;
    assert s[0] == digits[0] && s[0] in digits;
    assert s[1..] == digits[1..] + rest;
    if |digits| > 1 {
      NumberOf(digits[1..], rest);
      assert digits == [digits[0]] + digits[1..];
    } else {
      assert s[1..] == rest && digits == [digits[0]];
    }
  }

  lemma NumberThenOf(n: nat, literal: string, tail: string)
    requires literal != "" && !IsDigit(literal[0])
    ensures NumberThen(Field(n, literal, tail), literal) == Some((n, tail))
  {
    NumberOf(Decimal(n), literal + tail);
    DecimalRoundTrip(n);
    assert (literal + tail)[|literal|..] == tail;
  }

  lemma HunkOf(srcPos: nat, srcLen: nat, dstPos: nat, dstLen: nat)
    ensures MatchHunk(HunkText(srcPos, srcLen, dstPos, dstLen))
            == Some(HunkFields(srcPos, srcLen, dstPos, dstLen))
  {
    var s4 := Field(dstLen, " @@", "\n");
    var s3 := Field(dstPos, ",", s4);
    var s2 := Field(srcLen, " +", s3);
    var s1 := Field(srcPos, ",", s2);
    assert After("@@ -" + s1, "@@ -") == Some(s1);
    NumberThenOf(srcPos, ",", s2);
    NumberThenOf(srcLen, " +", s3);
    NumberThenOf(dstPos, ",", s4);
    NumberThenOf(dstLen, " @@", "\n");
  }

  lemma TokenOfHunk(c: Chunk)
    ensures Tokenize(HunkHeader(c)) == Hunk(c.srcPos, c.dstPos)
  {
    HunkOf(c.srcPos, SrcLen(c.lines), c.dstPos, DstLen(c.lines));
    NoMatch(HunkHeader(c), "--- ", 0);
    NoMatch(HunkHeader(c), "+++ ", 0);
  }

  /** Whether a reader that goes by the lengths counts a printed line towards the source, or the destination. */
  function MarkedSrc(s: string): nat {
    if s != "" && (s[0] == '-' || s[0] == ' ') then 1 else 0
  }

  function MarkedDst(s: string): nat {
    if s != "" && (s[0] == '+' || s[0] == ' ') then 1 else 0
  }

  lemma {:induction false} PrintedMarks(lines: seq<Line>)
    ensures Sum(PrintLines(lines), MarkedSrc) == SrcLen(lines)
    ensures Sum(PrintLines(lines), MarkedDst) == DstLen(lines)
  {
    if lines != [] {
      var front, l := lines[..|lines| - 1], lines[|lines| - 1];
      PrintedMarks(front);
      SumAppend(PrintLines(front), LineText(l), MarkedSrc);
      SumAppend(PrintLines(front), LineText(l), MarkedDst);
      SumAppend(front, l, SrcWeight);
      SumAppend(front, l, DstWeight);
      FrontAndLast(lines);
    }
  }

  /**
   Main result: the lengths this parser ignores are right. Read back from the header they
   are the numbers of source and of destination lines that follow, as the format demands.
   */
  lemma PrintedLengthsAreRight(c: Chunk)
    ensures MatchHunk(HunkHeader(c))
            == Some(HunkFields(c.srcPos, Sum(PrintLines(c.lines), MarkedSrc), c.dstPos, Sum(PrintLines(c.lines), MarkedDst)))
  {
    HunkOf(c.srcPos, SrcLen(c.lines), c.dstPos, DstLen(c.lines));
    PrintedMarks(c.lines);
  }

  // ----- the tokens of a printed patch set

  ghost predicate CleanChunk(c: Chunk) {
    forall l :: l in c.lines ==> NewlineFree(l.text)
  }

  ghost predicate CleanPatch(p: Patch) {
    NewlineFree(p.src) && NewlineFree(p.dst) && forall c :: c in p.chunks ==> CleanChunk(c)
  }

  /** Names and texts are single lines. */
  ghost predicate Clean(patches: seq<Patch>) {
    forall p :: p in patches ==> CleanPatch(p)
  }

  function LineTokens(lines: seq<Line>): seq<Token> {
    if lines == [] then [] else LineTokens(lines[..|lines| - 1]) + [LineToken(lines[|lines| - 1])]
  }

  function ChunkTokens(c: Chunk): seq<Token> {
    [Hunk(c.srcPos, c.dstPos)] + LineTokens(c.lines)
  }

  function ChunksTokens(chunks: seq<Chunk>): seq<Token> {
    if chunks == [] then [] else ChunksTokens(chunks[..|chunks| - 1]) + ChunkTokens(chunks[|chunks| - 1])
  }

  function TokensOfOne(p: Patch): seq<Token> {
    [FileSrc(p.src), FileDst(p.dst)] + ChunksTokens(p.chunks)
  }

  function SetTokens(patches: seq<Patch>): seq<Token> {
    if patches == [] then [] else SetTokens(patches[..|patches| - 1]) + TokensOfOne(patches[|patches| - 1])
  }

  lemma {:induction false} TokensConcat(a: seq<string>, b: seq<string>)
    ensures Tokens(a + b) == Tokens(a) + Tokens(b)
  {
    if b == [] {
      assert a + b == a;
    } else {
      FrontOfSum(a, b);
      TokensConcat(a, b[..|b| - 1]);
    }
  }

  lemma TokensOne(line: string)
    ensures Tokens([line]) == [Tokenize(line)]
  {
    assert Tokens([line][..0]) == [];
  }

  lemma {:induction false} TokensOfLines(lines: seq<Line>)
    requires forall l :: l in lines ==> NewlineFree(l.text)
    ensures Tokens(PrintLines(lines)) == LineTokens(lines)
  {
    if lines != [] {
      var front, l := lines[..|lines| - 1], lines[|lines| - 1];
      assert l in lines;
      TokensOfLines(front);
      TokensConcat(PrintLines(front), [LineText(l)]);
      TokensOne(LineText(l));
      TokenOfLine(l);
    }
  }

  lemma TokensOfChunk(c: Chunk)
    requires CleanChunk(c)
    ensures Tokens(PrintChunk(c)) == ChunkTokens(c)
  {
    TokensOne(HunkHeader(c));
    TokenOfHunk(c);
    TokensOfLines(c.lines);
    TokensConcat([HunkHeader(c)], PrintLines(c.lines));
  }

  lemma {:induction false} TokensOfChunks(chunks: seq<Chunk>)
    requires forall c :: c in chunks ==> CleanChunk(c)
    ensures Tokens(PrintChunks(chunks)) == ChunksTokens(chunks)
  {
    if chunks != [] {
      var front, c := chunks[..|chunks| - 1], chunks[|chunks| - 1];
      assert c in chunks;
      TokensOfChunks(front);
      TokensOfChunk(c);
      TokensConcat(PrintChunks(front), PrintChunk(c));
    }
  }

  lemma TokensOfPatch(p: Patch)
    requires CleanPatch(p)
    ensures Tokens(PrintPatch(p)) == TokensOfOne(p)
  {
    var first, second := "--- " + p.src + "\n", "+++ " + p.dst + "\n";
    TokenOfFileSrc(p.src);
    TokenOfFileDst(p.dst);
    TokensOne(first);
    TokensOne(second);
    TokensConcat([first], [second]);
    assert [first] + [second] == [first, second];
    TokensOfChunks(p.chunks);
    TokensConcat([first, second], PrintChunks(p.chunks));
  }

  /** Every line of a printed patch set is read as the token it was printed for, header look-alikes aside. */
  lemma {:induction false} TokensOfPrint(patches: seq<Patch>)
    requires forall p :: p in patches ==> CleanPatch(p)
    ensures Tokens(Print(patches)) == SetTokens(patches)
  {
    if patches != [] {
      var front, p := patches[..|patches| - 1], patches[|patches| - 1];
      assert p in patches;
      TokensOfPrint(front);
      TokensOfPatch(p);
      TokensConcat(Print(front), PrintPatch(p));
    }
  }

  // ----- what a token can be

  lemma CapturedIsClean(s: string)
    ensures Captured(s).Some? ==> NewlineFree(Captured(s).value) && Captured(s).value <= s
  {
  }

  ghost predicate CleanToken(t: Token) {
    match t
    case FileSrc(name) => NewlineFree(name)
    case FileDst(name) => NewlineFree(name)
    case Content(l) => NewlineFree(l.text) && !LooksLikeHeader(l)
    case _ => true
  }

  /** A token's text has no newline, and a content line never looks like a file header. */
  lemma TokenIsClean(s: string)
    ensures CleanToken(Tokenize(s))
  {
    match Tokenize(s)
    case FileSrc(name) => CapturedIsClean(s[4..]);
    case FileDst(name) => CapturedIsClean(s[4..]);
    case Content(l) =>
      CapturedIsClean(s[1..]);
      if LooksLikeHeader(l) {
        HeaderWouldMatch(s, if l.kind == Src then "--- " else "+++ ", l.text);
      }
    case _ =>
  }

  /** If what follows the marker reads on as a file header, the header's pattern matches. */
  lemma HeaderWouldMatch(s: string, header: string, t: string)
    requires |header| == 4 && header[1..] <= t && s != "" && s[0] == header[0] && Captured(s[1..]) == Some(t)
    ensures Match(s, header).Some?
  {
    var u := s[1..];
    CapturedIsClean(u);
    assert u == t || u == t + "\n";
    assert header == [header[0]] + header[1..] && s == [s[0]] + u;
    assert header[1..] <= u;
    assert header <= s;
    var rest := s[4..];
    assert rest == u[3..];
    assert rest == t[3..] || rest == t[3..] + "\n";
    assert NewlineFree(t[3..]);
    assert (t[3..] + "\n")[..|t| - 3] == t[3..];
    assert Captured(rest) == Some(t[3..]);
  }
}
