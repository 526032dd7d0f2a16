/**
 Patch sets in the unified diff format as values: how they are printed and how lines are
 parsed, after "Diff -u or -U Output Format" of the diff utility in POSIX.1-2008. The
 parser reads a subset: both lengths must be written in a hunk header.
 */
module PatchText {
  import opened Options
  import opened Sequences
  import opened Sums

  datatype LineKind = Src | Dst | Both

  datatype Line = Line(kind: LineKind, text: string) {
    predicate IsSrc() { kind == Src || kind == Both }
    predicate IsDst() { kind == Dst || kind == Both }
  }

  datatype Chunk = Chunk(srcPos: nat, dstPos: nat, lines: seq<Line>)

  datatype Patch = Patch(src: string, dst: string, chunks: seq<Chunk>)

  // ----- numbers

  predicate IsDigit(c: char) {
    '0' <= c <= '9'
  }

  function DigitChar(d: nat): (c: char)
    requires d < 10
    ensures IsDigit(c) && DigitValue(c) == d
  {
    ('0' as int + d) as char
  }

  function DigitValue(c: char): (d: nat)
    requires IsDigit(c)
    ensures d < 10
  {
    c as int - '0' as int
  }

  function Decimal(n: nat): (s: string)
    ensures s != "" && forall c :: c in s ==> IsDigit(c)
  {
    if n < 10 then [DigitChar(n)] else Decimal(n / 10) + [DigitChar(n % 10)]
  }

  function DecimalValue(s: string): nat
    requires forall c :: c in s ==> IsDigit(c)
  {
    if s == "" then 0
    else DecimalValue(s[..|s| - 1]) * 10 + DigitValue(s[|s| - 1])
  }

  lemma {:induction false} DecimalRoundTrip(n: nat)
    ensures DecimalValue(Decimal(n)) == n
  {
    if n >= 10 {
      DecimalRoundTrip(n / 10);
      assert Decimal(n)[..|Decimal(n)| - 1] == Decimal(n / 10);
    } else {
      assert DecimalValue("") == 0;
    }
  }

  /** Zeros in front of a number do not change it. */
  lemma {:induction false} LeadingZero(s: string)
    requires forall c :: c in s ==> IsDigit(c)
    ensures DecimalValue("0" + s) == DecimalValue(s)
  {
    if s == "" {
      assert DecimalValue("") == 0 && ("0" + s)[..0] == "";
    } else {
      var front := s[..|s| - 1];
      FrontOfSum("0", s);
      LeadingZero(front);
    }
  }

  // ----- printing

  function SrcLen(lines: seq<Line>): nat {
    Sum(lines, SrcWeight)
  }

  function DstLen(lines: seq<Line>): nat {
    Sum(lines, DstWeight)
  }

  function SrcWeight(l: Line): nat {
    if l.IsSrc() then 1 else 0
  }

  function DstWeight(l: Line): nat {
    if l.IsDst() then 1 else 0
  }

  function LineText(l: Line): string {
    (match l.kind case Src => "-" case Dst => "+" case Both => " ") + l.text + "\n"
  }

  /** A number, the literal after it, and the rest of the line. */
  function Field(n: nat, literal: string, tail: string): string {
    Decimal(n) + (literal + tail)
  }

  function HunkText(srcPos: nat, srcLen: nat, dstPos: nat, dstLen: nat): string {
    "@@ -" + Field(srcPos, ",", Field(srcLen, " +", Field(dstPos, ",", Field(dstLen, " @@", "\n"))))
  }

  function HunkHeader(c: Chunk): string {
    HunkText(c.srcPos, SrcLen(c.lines), c.dstPos, DstLen(c.lines))
  }

  function PrintLines(lines: seq<Line>): seq<string> {
    if lines == [] then [] else PrintLines(lines[..|lines| - 1]) + [LineText(lines[|lines| - 1])]
  }

  function PrintChunk(c: Chunk): seq<string> {
    [HunkHeader(c)] + PrintLines(c.lines)
  }

  function PrintChunks(chunks: seq<Chunk>): seq<string> {
    if chunks == [] then [] else PrintChunks(chunks[..|chunks| - 1]) + PrintChunk(chunks[|chunks| - 1])
  }

  function PrintPatch(p: Patch): seq<string> {
    ["--- " + p.src + "\n", "+++ " + p.dst + "\n"] + PrintChunks(p.chunks)
  }

  function Print(patches: seq<Patch>): seq<string> {
    if patches == [] then [] else Print(patches[..|patches| - 1]) + PrintPatch(patches[|patches| - 1])
  }

  // ----- matching one line

  function After(s: string, prefix: string): Option<string> {
    if prefix <= s then Some(s[|prefix|..]) else None
  }

  /** A line without its newline, if it has no other; what `(.*)$` captures. */
  function Captured(s: string): Option<string> {
    var t := if s != "" && s[|s| - 1] == '\n' then s[..|s| - 1] else s;
    if '\n' in t then None else Some(t)
  }

  /** The capture of a pattern made of a literal prefix and `(.*)$`. */
  function Match(s: string, prefix: string): Option<string> {
    match After(s, prefix)
    case None => None
    case Some(rest) => Captured(rest)
  }

  /** The longest run of leading digits, if not empty, and what follows it. */
  function Number(s: string): (r: Option<(string, string)>)
    ensures r.Some? ==> forall c :: c in r.value.0 ==> IsDigit(c)
  {
    if s == "" || !IsDigit(s[0]) then None
    else
      match Number(s[1..])
      case None => Some(([s[0]], s[1..]))
      case Some((digits, rest)) => Some(([s[0]] + digits, rest))
  }

  /** A number followed by a literal. */
  function NumberThen(s: string, literal: string): (r: Option<(nat, string)>) {
    match Number(s)
    case None => None
    case Some((digits, rest)) =>
      match After(rest, literal)
      case None => None
      case Some(rest) => Some((DecimalValue(digits), rest))
  }

  datatype HunkFields = HunkFields(srcPos: nat, srcLen: nat, dstPos: nat, dstLen: nat)

  /** The four numbers of a hunk header. */
  function MatchHunk(s: string): Option<HunkFields> {
    match After(s, "@@ -") {
      case None => None
      case Some(s) =>
        match NumberThen(s, ",") {
          case None => None
          case Some((srcPos, s)) =>
            match NumberThen(s, " +") {
              case None => None
              case Some((srcLen, s)) =>
                match NumberThen(s, ",") {
                  case None => None
                  case Some((dstPos, s)) =>
                    match NumberThen(s, " @@") {
                      case None => None
                      case Some((dstLen, _)) => Some(HunkFields(srcPos, srcLen, dstPos, dstLen))
                    }
                }
            }
        }
    }
  }

  datatype Token = FileSrc(name: string) | FileDst(name: string) | Hunk(srcPos: nat, dstPos: nat) | Content(line: Line) | Unmatched

  /** The first pattern that matches, in the order the parser tries them; a hunk's lengths are ignored. */
  function Tokenize(s: string): Token {
    if Match(s, "--- ").Some? then FileSrc(Match(s, "--- ").value)
    else if Match(s, "+++ ").Some? then FileDst(Match(s, "+++ ").value)
    else if MatchHunk(s).Some? then Hunk(MatchHunk(s).value.srcPos, MatchHunk(s).value.dstPos)
    else if Match(s, "-").Some? then Content(Line(Src, Match(s, "-").value))
    else if Match(s, "+").Some? then Content(Line(Dst, Match(s, "+").value))
    else if Match(s, " ").Some? then Content(Line(Both, Match(s, " ").value))
    else Unmatched
  }

  // ----- parsing

  /** The parser's exceptions: no patch to add to, no chunk to add to, no pattern matches. */
  datatype Error = NoPatch | NoChunk | BadLine

  datatype Result<+T> = Ok(value: T) | Err(error: Error)

  /** The chunk content goes to; it outlives the header of a following patch. */
  datatype Cursor = Nowhere | At(patch: nat, chunk: nat)

  datatype Progress = Progress(patches: seq<Patch>, cursor: Cursor) {
    predicate Valid() {
      cursor.At? ==> cursor.patch < |patches| && cursor.chunk < |patches[cursor.patch].chunks|
    }
  }

  const START := Progress([], Nowhere)

  function AddLine(patches: seq<Patch>, i: nat, j: nat, l: Line): seq<Patch>
    requires i < |patches| && j < |patches[i].chunks|
  {
    var p := patches[i];
    var c := p.chunks[j];
    patches[i := p.(chunks := p.chunks[j := c.(lines := c.lines + [l])])]
  }

  function Consume(s: Progress, t: Token): (r: Result<Progress>)
    requires s.Valid()
    ensures r.Ok? ==> r.value.Valid()
  {
    var n := |s.patches|;
    match t
    case FileSrc(name) => Ok(s.(patches := s.patches + [Patch(name, "", [])]))
    case FileDst(name) =>
      if n == 0 then Err(NoPatch) else Ok(s.(patches := s.patches[n - 1 := s.patches[n - 1].(dst := name)]))
    case Hunk(srcPos, dstPos) =>
      if n == 0 then Err(NoPatch)
      else
        var p := s.patches[n - 1];
        Ok(Progress(s.patches[n - 1 := p.(chunks := p.chunks + [Chunk(srcPos, dstPos, [])])], At(n - 1, |p.chunks|)))
    case Content(l) =>
      if s.cursor.Nowhere? then Err(NoChunk)
      else Ok(s.(patches := AddLine(s.patches, s.cursor.patch, s.cursor.chunk, l)))
    case Unmatched => Err(BadLine)
  }

  /** The parser's loop over the tokens of the lines; the first exception ends it. */
  function Absorb(s: Progress, tokens: seq<Token>): (r: Result<Progress>)
    requires s.Valid()
    ensures r.Ok? ==> r.value.Valid()
  {
    if tokens == [] then Ok(s)
    else
      match Absorb(s, tokens[..|tokens| - 1])
      case Err(e) => Err(e)
      case Ok(t) => Consume(t, tokens[|tokens| - 1])
  }

  function Tokens(lines: seq<string>): (tokens: seq<Token>)
    ensures |tokens| == |lines|
  {
    if lines == [] then [] else Tokens(lines[..|lines| - 1]) + [Tokenize(lines[|lines| - 1])]
  }

  function Parse(lines: seq<string>): Result<seq<Patch>> {
    match Absorb(START, Tokens(lines))
    case Err(e) => Err(e)
    case Ok(s) => Ok(s.patches)
  }

  // ----- text files

  function Concat(lines: seq<string>): string {
    if lines == [] then "" else lines[0] + Concat(lines[1..])
  }

  /** The lines of a text, each with its newline, as reading a file yields them. */
  function SplitLines(text: string): seq<string> {
    SplitFrom("", text)
  }

  function SplitFrom(line: string, text: string): seq<string>
    decreases |text|
  {
    if text == "" then (if line == "" then [] else [line])
    else if text[0] == '\n' then [line + "\n"] + SplitFrom("", text[1..])
    else SplitFrom(line + [text[0]], text[1..])
  }
}
