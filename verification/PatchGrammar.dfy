/**
 The lines the parser accepts, said without the order in which it tries its patterns: which
 token a line is, for every line, and that a missing last newline makes no difference.
 */
module PatchGrammar {
  import opened Options
  import opened Sequences
  import opened PatchText
  import opened PatchTokens
  import opened PatchRoundTrip

  /** The line is a text, with or without a newline after it. */
  ghost predicate Reads(s: string, text: string) {
    s == text || s == text + "\n"
  }

  predicate Digits(s: string) {
    s != "" && forall c :: c in s ==> IsDigit(c)
  }

  /** The beginning of a hunk header with four numbers, and whatever follows. */
  function HunkLine(n1: string, n2: string, n3: string, n4: string, rest: string): string {
    "@@ -" + (n1 + ("," + (n2 + (" +" + (n3 + ("," + (n4 + (" @@" + rest))))))))
  }

  /** The line begins with a hunk header whose first and third numbers have these values. */
  ghost predicate ReadsHunk(s: string, srcPos: nat, dstPos: nat) {
    exists n1, n2, n3, n4, rest :: HunkOfDigits(s, n1, n2, n3, n4, rest, srcPos, dstPos)
  }

  ghost predicate HunkOfDigits(s: string, n1: string, n2: string, n3: string, n4: string, rest: string, srcPos: nat, dstPos: nat) {
    && Digits(n1) && Digits(n2) && Digits(n3) && Digits(n4) && s == HunkLine(n1, n2, n3, n4, rest)
    && DecimalValue(n1) == srcPos && DecimalValue(n3) == dstPos
  }

  /** The lines that are a given token. */
  ghost predicate Fits(s: string, t: Token) {
    match t
    case FileSrc(name) => NewlineFree(name) && Reads(s, "--- " + name)
    case FileDst(name) => NewlineFree(name) && Reads(s, "+++ " + name)
    case Hunk(srcPos, dstPos) => ReadsHunk(s, srcPos, dstPos)
    case Content(Line(Src, text)) => NewlineFree(text) && Reads(s, "-" + text) && !("-- " <= text)
    case Content(Line(Dst, text)) => NewlineFree(text) && Reads(s, "+" + text) && !("++ " <= text)
    case Content(Line(Both, text)) => NewlineFree(text) && Reads(s, " " + text)
    case Unmatched => false
  }

  // ----- one pattern

  lemma CapturedIff(s: string, t: string)
    ensures Captured(s) == Some(t) <==> NewlineFree(t) && Reads(s, t)
  {
    if NewlineFree(t) && Reads(s, t) {
      assert (t + "\n")[..|t|] == t;
      assert t != "" && t[|t| - 1] == '\n' ==> '\n' in t;
    }
    if Captured(s) == Some(t) && s != t {
      FrontAndLast(s);
    }
  }

  lemma MatchIff(s: string, prefix: string, t: string)
    ensures Match(s, prefix) == Some(t) <==> NewlineFree(t) && Reads(s, prefix + t)
  {
    if prefix <= s {
      CapturedIff(s[|prefix|..], t);
      assert s == prefix + s[|prefix|..];
      assert (prefix + t)[|prefix|..] == t && (prefix + t + "\n")[|prefix|..] == t + "\n";
      Regroup(prefix, t, "\n");
    } else {
      assert prefix <= prefix + t && prefix <= prefix + t + "\n";
    }
  }

  // ----- hunk headers

  lemma {:induction false} NumberSplits(s: string)
    requires Number(s).Some?
    ensures Digits(Number(s).value.0) && s == Number(s).value.0 + Number(s).value.1
  {
    assert s == [s[0]] + s[1..];
    if Number(s[1..]).Some? {
      NumberSplits(s[1..]);
      Regroup([s[0]], Number(s[1..]).value.0, Number(s[1..]).value.1);
    }
  }

  /** What reading a number and a literal finds. */
  lemma NumberThenReads(s: string, literal: string) returns (digits: string)
    requires NumberThen(s, literal).Some?
    ensures Digits(digits) && s == digits + (literal + NumberThen(s, literal).value.1)
    ensures DecimalValue(digits) == NumberThen(s, literal).value.0
  {
    NumberSplits(s);
    digits := Number(s).value.0;
    var rest := Number(s).value.1;
    assert rest == literal + rest[|literal|..];
  }

  lemma NumberThenFinds(digits: string, literal: string, rest: string)
    requires Digits(digits) && literal != "" && !IsDigit(literal[0])
    ensures NumberThen(digits + (literal + rest), literal) == Some((DecimalValue(digits), rest))
  {
    NumberOf(digits, literal + rest);
    assert (literal + rest)[|literal|..] == rest;
  }

  lemma HunkReads(s: string)
    requires MatchHunk(s).Some?
    ensures ReadsHunk(s, MatchHunk(s).value.srcPos, MatchHunk(s).value.dstPos)
  {
    var s1 := s[4..];
    assert s == "@@ -" + s1;
    var n1 := NumberThenReads(s1, ",");
    var s2 := NumberThen(s1, ",").value.1;
    var n2 := NumberThenReads(s2, " +");
    var s3 := NumberThen(s2, " +").value.1;
    var n3 := NumberThenReads(s3, ",");
    var s4 := NumberThen(s3, ",").value.1;
    var n4 := NumberThenReads(s4, " @@");
    var rest := NumberThen(s4, " @@").value.1;
    assert HunkOfDigits(s, n1, n2, n3, n4, rest, MatchHunk(s).value.srcPos, MatchHunk(s).value.dstPos);
  }

  lemma HunkFinds(n1: string, n2: string, n3: string, n4: string, rest: string)
    requires Digits(n1) && Digits(n2) && Digits(n3) && Digits(n4)
    ensures MatchHunk(HunkLine(n1, n2, n3, n4, rest))
            == Some(HunkFields(DecimalValue(n1), DecimalValue(n2), DecimalValue(n3), DecimalValue(n4)))
  {
    var s4 := n4 + (" @@" + rest);
    var s3 := n3 + ("," + s4);
    var s2 := n2 + (" +" + s3);
    var s1 := n1 + ("," + s2);
    assert After("@@ -" + s1, "@@ -") == Some(s1);
    NumberThenFinds(n1, ",", s2);
    NumberThenFinds(n2, " +", s3);
    NumberThenFinds(n3, ",", s4);
    NumberThenFinds(n4, " @@", rest);
  }

  lemma HunkIff(s: string, srcPos: nat, dstPos: nat)
    ensures ReadsHunk(s, srcPos, dstPos) <==>
            MatchHunk(s).Some? && MatchHunk(s).value.srcPos == srcPos && MatchHunk(s).value.dstPos == dstPos
  {
    if MatchHunk(s).Some? {
      HunkReads(s);
    }
    if n1, n2, n3, n4, rest :| HunkOfDigits(s, n1, n2, n3, n4, rest, srcPos, dstPos) {
      HunkFinds(n1, n2, n3, n4, rest);
    }
  }

  // ----- the first pattern that matches

  /** Patterns that begin differently do not match the same line. */
  lemma FirstCharacter(s: string)
    ensures (Match(s, "--- ").Some? || Match(s, "-").Some?) ==> s != "" && s[0] == '-'
    ensures (Match(s, "+++ ").Some? || Match(s, "+").Some?) ==> s != "" && s[0] == '+'
    ensures MatchHunk(s).Some? ==> s != "" && s[0] == '@'
    ensures Match(s, " ").Some? ==> s != "" && s[0] == ' '
  {
  }

  /** A content line is a file header exactly if its text reads on as one. */
  lemma HeaderIff(s: string, marker: string, header: string, text: string)
    requires |marker| == 1 && |header| == 4 && header[0] == marker[0]
    requires header[3] == ' ' && Match(s, marker) == Some(text)
    ensures Match(s, header).Some? <==> header[1..] <= text
  {
    MatchIff(s, marker, text);
    if header[1..] <= text {
      assert s[1..] == s[|marker|..];
      HeaderWouldMatch(s, header, text);
    }
    if Match(s, header).Some? {
      assert header <= s;
      assert |text| >= 3;
      assert forall k :: 1 <= k < 4 ==> text[k - 1] == s[k] == header[k];
    }
  }

  /**
   Main result: the grammar. For every line, what the parser takes it for is decided by its
   characters as the format says, with or without a newline at its end.
   */
  lemma GrammarIff(s: string, t: Token)
    requires t != Unmatched
    ensures Tokenize(s) == t <==> Fits(s, t)
  {
    FirstCharacter(s);
    match t
    case FileSrc(name) => MatchIff(s, "--- ", name);
    case FileDst(name) => MatchIff(s, "+++ ", name);
    case Hunk(srcPos, dstPos) => HunkIff(s, srcPos, dstPos);
    case Content(l) => ContentIff(s, l);
  }

  lemma ContentIff(s: string, l: Line)
    ensures Tokenize(s) == Content(l) <==> Fits(s, Content(l))
  {
    FirstCharacter(s);
    match l.kind
    case Src =>
      MatchIff(s, "-", l.text);
      if Match(s, "-") == Some(l.text) {
        HeaderIff(s, "-", "--- ", l.text);
      }
    case Dst =>
      MatchIff(s, "+", l.text);
      if Match(s, "+") == Some(l.text) {
        HeaderIff(s, "+", "+++ ", l.text);
      }
    case Both => MatchIff(s, " ", l.text);
  }

  /** Main result: the lines on which the parser gives up are those that are no token. */
  lemma UnmatchedIff(s: string)
    ensures Tokenize(s) == Unmatched <==> forall t :: !Fits(s, t)
  {
    forall t | t != Unmatched ensures Tokenize(s) == t <==> Fits(s, t) {
      GrammarIff(s, t);
    }
    assert Tokenize(s) != Unmatched ==> Fits(s, Tokenize(s));
  }

  // ----- newlines at the ends of lines

  lemma ReadsEither(s: string, text: string)
    requires NewlineFree(s) && NewlineFree(text)
    ensures Reads(s, text) <==> s == text
    ensures Reads(s + "\n", text) <==> s == text
  {
    assert (s + "\n")[|s|] == '\n' && (text + "\n")[|text|] == '\n';
    assert s + "\n" == text + "\n" ==> (s + "\n")[..|s|] == (text + "\n")[..|text|];
  }

  lemma HunkRest(s: string, n1: string, n2: string, n3: string, n4: string, rest: string)
    ensures HunkLine(n1, n2, n3, n4, rest) + s == HunkLine(n1, n2, n3, n4, rest + s)
  {
    var head := HunkLine(n1, n2, n3, n4, "");
    assert HunkLine(n1, n2, n3, n4, rest) == head + rest;
    assert HunkLine(n1, n2, n3, n4, rest + s) == head + (rest + s);
    Regroup(head, rest, s);
  }

  lemma HunkEither(s: string, srcPos: nat, dstPos: nat)
    ensures ReadsHunk(s + "\n", srcPos, dstPos) <==> ReadsHunk(s, srcPos, dstPos)
  {
    if n1, n2, n3, n4, rest :| HunkOfDigits(s, n1, n2, n3, n4, rest, srcPos, dstPos) {
      HunkRest("\n", n1, n2, n3, n4, rest);
      assert HunkOfDigits(s + "\n", n1, n2, n3, n4, rest + "\n", srcPos, dstPos);
    }
    if n1, n2, n3, n4, rest :| HunkOfDigits(s + "\n", n1, n2, n3, n4, rest, srcPos, dstPos) {
      HunkWithoutNewline(s, n1, n2, n3, n4, rest);
      assert HunkOfDigits(s, n1, n2, n3, n4, rest[..|rest| - 1], srcPos, dstPos);
    }
  }

  lemma HunkWithoutNewline(s: string, n1: string, n2: string, n3: string, n4: string, rest: string)
    requires s + "\n" == HunkLine(n1, n2, n3, n4, rest)
    ensures rest != "" && s == HunkLine(n1, n2, n3, n4, rest[..|rest| - 1])
  {
    var head := HunkLine(n1, n2, n3, n4, "");
    HunkRest(rest, n1, n2, n3, n4, "");
    assert "" + rest == rest;
    assert head[|head| - 1] == '@' && (s + "\n")[|s|] == '\n';
    assert rest != "";
    HunkRest(rest[..|rest| - 1], n1, n2, n3, n4, "");
    assert "" + rest[..|rest| - 1] == rest[..|rest| - 1];
    assert (head + rest)[..|s|] == head + rest[..|rest| - 1];
    assert (s + "\n")[..|s|] == s;
  }

  lemma FitsEither(s: string, t: Token)
    requires NewlineFree(s)
    ensures Fits(s + "\n", t) <==> Fits(s, t)
  {
    match t
    case FileSrc(name) => if NewlineFree(name) { ReadsEither(s, "--- " + name); }
    case FileDst(name) => if NewlineFree(name) { ReadsEither(s, "+++ " + name); }
    case Hunk(srcPos, dstPos) => HunkEither(s, srcPos, dstPos);
    case Content(Line(Src, text)) => if NewlineFree(text) { ReadsEither(s, "-" + text); }
    case Content(Line(Dst, text)) => if NewlineFree(text) { ReadsEither(s, "+" + text); }
    case Content(Line(Both, text)) => if NewlineFree(text) { ReadsEither(s, " " + text); }
    case Unmatched =>
  }

  /** A newline at the end of a line makes no difference to its token. */
  lemma LastNewline(s: string)
    requires NewlineFree(s)
    ensures Tokenize(s + "\n") == Tokenize(s)
  {
    var t, t' := Tokenize(s), Tokenize(s + "\n");
    if t != Unmatched {
      GrammarIff(s, t);
      FitsEither(s, t);
      GrammarIff(s + "\n", t);
    } else if t' != Unmatched {
      GrammarIff(s + "\n", t');
      FitsEither(s, t');
      GrammarIff(s, t');
    }
  }

  /** A line without the newline at its end, if there is one. */
  function Chomp(s: string): string {
    if s != "" && s[|s| - 1] == '\n' then s[..|s| - 1] else s
  }

  function Chomped(lines: seq<string>): seq<string> {
    seq(|lines|, i requires 0 <= i < |lines| => Chomp(lines[i]))
  }

  ghost predicate SingleLines(lines: seq<string>) {
    forall s :: s in lines ==> NewlineFree(Chomp(s))
  }

  lemma TokenOfChomped(s: string)
    requires NewlineFree(Chomp(s))
    ensures Tokenize(Chomp(s)) == Tokenize(s)
  {
    if Chomp(s) != s {
      FrontAndLast(s);
      LastNewline(Chomp(s));
    }
  }

  lemma {:induction false} TokensOfChomped(lines: seq<string>)
    requires SingleLines(lines)
    ensures Tokens(Chomped(lines)) == Tokens(lines)
  {
    if lines != [] {
      var n := |lines| - 1;
      assert Chomped(lines)[..n] == Chomped(lines[..n]);
      assert lines[n] in lines;
      TokensOfChomped(lines[..n]);
      TokenOfChomped(lines[n]);
    }
  }

  /** Main result: lines that differ only in the newlines at their ends are parsed alike. */
  lemma ParseIgnoresLastNewlines(lines: seq<string>, lines': seq<string>)
    requires SingleLines(lines) && SingleLines(lines') && Chomped(lines) == Chomped(lines')
    ensures Parse(lines) == Parse(lines')
  {
    TokensOfChomped(lines);
    TokensOfChomped(lines');
  }

  /**
   Main result, with its exact condition: the round trip without the newlines at the ends
   of the lines, as a generator may yield them.
   */
  lemma ChompedRoundTripIff(patches: seq<Patch>)
    requires Clean(patches)
    ensures Parse(Chomped(Print(patches))) == Ok(patches) <==> Plain(patches)
  {
    PrintedFull(patches);
    TokensOfChomped(Print(patches));
    RoundTripIff(patches);
  }
}
