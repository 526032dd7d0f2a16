/**
 The pass that undoes removed trailing blanks: the n-th source line of a chunk is compared
 with its n-th destination line, and a destination text that lacks just the last blank of
 the source text gets it back. A chunk with fewer destination than source lines ends the
 whole pass.
 */
module PatchWhitespace {
  import opened Options
  import opened Sums
  import opened PatchText
  import opened PatchTokens

  predicate IsBlank(c: char) {
    c == ' ' || c == '\t'
  }

  /** What `^(.*)([ \t]+)$` captures; the first group being greedy, the second is one character. */
  function TrailingBlank(text: string): Option<(string, string)> {
    match Captured(text)
    case None => None
    case Some(t) =>
      var n := |t|;
      if n > 0 && IsBlank(t[n - 1]) then Some((t[..n - 1], t[n - 1..])) else None
  }

  /** The text lacks just a trailing blank of a one-line source text. */
  predicate LacksBlank(text: string, source: string) {
    NewlineFree(source) && (source == text + " " || source == text + "\t")
  }

  /** A text lacks just the last blank of what it is compared with, or stays as it is. */
  lemma RestoredIs(text: string, source: string)
    requires NewlineFree(source)
    ensures Restored(text, source) == if LacksBlank(text, source) then source else text
  {
    var n := |source|;
    assert n > 0 && source[n - 1] == '\n' ==> '\n' in source;
    assert Captured(source) == Some(source);
    if n > 0 {
      assert source == source[..n - 1] + source[n - 1..];
      assert source[n - 1..] == [source[n - 1]];
      assert (text + " ")[..|text|] == text && (text + "\t")[..|text|] == text;
    } else {
      assert |text + " "| > 0 && |text + "\t"| > 0;
    }
  }

  /** The positions of the source, or of the destination, lines of a chunk. */
  function SrcLines(lines: seq<Line>): (r: seq<nat>)
    ensures forall k :: 0 <= k < |r| ==> r[k] < |lines| && lines[r[k]].IsSrc()
    ensures forall i, k :: 0 <= i < k < |r| ==> r[i] < r[k]
    ensures |r| == SrcLen(lines)
  {
    if lines == [] then []
    else
      var n := |lines| - 1;
      SumAppend(lines[..n], lines[n], SrcWeight);
      assert lines == lines[..n] + [lines[n]];
      SrcLines(lines[..n]) + (if lines[n].IsSrc() then [n] else [])
  }

  function DstLines(lines: seq<Line>): (r: seq<nat>)
    ensures forall k :: 0 <= k < |r| ==> r[k] < |lines| && lines[r[k]].IsDst()
    ensures forall i, k :: 0 <= i < k < |r| ==> r[i] < r[k]
    ensures |r| == DstLen(lines)
  {
    if lines == [] then []
    else
      var n := |lines| - 1;
      SumAppend(lines[..n], lines[n], DstWeight);
      assert lines == lines[..n] + [lines[n]];
      DstLines(lines[..n]) + (if lines[n].IsDst() then [n] else [])
  }

  /** A text compared with a source text: it gets the trailing blank if it lacks just that. */
  function Restored(text: string, source: string): string {
    match TrailingBlank(source)
    case None => text
    case Some((stripped, blank)) => if stripped == text then text + blank else text
  }

  /** One comparison: source line `s` with destination line `d`. */
  function Pair(lines: seq<Line>, s: nat, d: nat): seq<Line>
    requires s < |lines| && d < |lines|
  {
    lines[d := lines[d].(text := Restored(lines[d].text, lines[s].text))]
  }

  /** The loop from rank `k` on; false if it ran out of destination lines. */
  function PairAll(lines: seq<Line>, src: seq<nat>, dst: seq<nat>, k: nat): (r: (seq<Line>, bool))
    requires forall i :: 0 <= i < |src| ==> src[i] < |lines|
    requires forall i :: 0 <= i < |dst| ==> dst[i] < |lines|
    ensures |r.0| == |lines|
    decreases |src| - k
  {
    if k >= |src| then (lines, true)
    else if k >= |dst| then (lines, false)
    else PairAll(Pair(lines, src[k], dst[k]), src, dst, k + 1)
  }

  function PassChunk(c: Chunk): (Chunk, bool) {
    var (lines, ok) := PairAll(c.lines, SrcLines(c.lines), DstLines(c.lines), 0);
    (c.(lines := lines), ok)
  }

  /** Once an element ends the pass the remaining ones are left alone. */
  function UntilFailure<T>(s: seq<T>, f: T -> (T, bool)): (r: (seq<T>, bool))
    ensures |r.0| == |s|
  {
    if s == [] then ([], true)
    else
      var (done, ok) := UntilFailure(s[..|s| - 1], f);
      var last := s[|s| - 1];
      if ok then (done + [f(last).0], f(last).1) else (done + [last], false)
  }

  function PassPatch(p: Patch): (Patch, bool) {
    var (chunks, ok) := UntilFailure(p.chunks, PassChunk);
    (p.(chunks := chunks), ok)
  }

  function Pass(patches: seq<Patch>): (r: (seq<Patch>, bool))
    ensures |r.0| == |patches|
  {
    UntilFailure(patches, PassPatch)
  }

  /** Parse, then pass. */
  function RemoveTrailingWhitespaceChanges(lines: seq<string>): Result<seq<Patch>> {
    match Parse(lines)
    case Err(e) => Err(e)
    case Ok(patches) => Ok(Pass(patches).0)
  }

  // ----- elements one after the other

  lemma {:induction false} UntilFailureAt<T>(s: seq<T>, f: T -> (T, bool), i: nat)
    requires i < |s|
    ensures UntilFailure(s, f).0[i] == if forall h :: 0 <= h < i ==> f(s[h]).1 then f(s[i]).0 else s[i]
  {
    var n := |s| - 1;
    if i < n {
      UntilFailureAt(s[..n], f, i);
      assert forall h :: 0 <= h <= i ==> s[..n][h] == s[h];
    } else {
      UntilFailureCompletes(s[..n], f);
      assert forall h :: 0 <= h < n ==> s[..n][h] == s[h] && s[h] in s[..n];
    }
  }

  lemma {:induction false} UntilFailureCompletes<T>(s: seq<T>, f: T -> (T, bool))
    ensures UntilFailure(s, f).1 <==> forall x :: x in s ==> f(x).1
  {
    if s != [] {
      var n := |s| - 1;
      UntilFailureCompletes(s[..n], f);
      assert s == s[..n] + [s[n]];
      assert s[n] in s;
    }
  }

  /** The elements once the first `n` have been dealt with. */
  ghost function Midway<T>(s: seq<T>, f: T -> (T, bool), n: nat): (r: seq<T>)
    requires n <= |s|
    ensures |r| == |s|
  {
    UntilFailure(s[..n], f).0 + s[n..]
  }

  lemma MidwayStep<T>(s: seq<T>, f: T -> (T, bool), n: nat)
    requires n < |s| && UntilFailure(s[..n], f).1
    ensures Midway(s, f, n)[n] == s[n]
    ensures Midway(s, f, n + 1) == Midway(s, f, n)[n := f(s[n]).0]
    ensures UntilFailure(s[..n + 1], f).1 == f(s[n]).1
  {
    assert s[..n + 1][..n] == s[..n];
  }

  /** When an element has ended the pass, midway is the result. */
  lemma {:induction false} MidwayFailed<T>(s: seq<T>, f: T -> (T, bool), n: nat)
    requires n <= |s| && !UntilFailure(s[..n], f).1
    ensures UntilFailure(s, f) == (Midway(s, f, n), false)
  {
    var last := |s| - 1;
    if n == |s| {
      assert s[..n] == s;
      assert UntilFailure(s, f).0 + s[n..] == UntilFailure(s, f).0;
    } else {
      assert s[..last][..n] == s[..n];
      MidwayFailed(s[..last], f, n);
      assert s[..last][n..] + [s[last]] == s[n..];
      var done := UntilFailure(s[..n], f).0;
      assert done + s[..last][n..] + [s[last]] == done + (s[..last][n..] + [s[last]]);
    }
  }

  lemma MidwayEnds<T>(s: seq<T>, f: T -> (T, bool))
    ensures Midway(s, f, 0) == s && Midway(s, f, |s|) == UntilFailure(s, f).0
    ensures UntilFailure(s[..0], f).1 && s[..|s|] == s
  {
    assert s[..|s|] == s;
  }

  // ----- the texts after the pass, from the texts before it

  /** The text of line `m` once the first `k` ranks have been compared. */
  function TextAt(lines: seq<Line>, src: seq<nat>, dst: seq<nat>, m: nat, k: nat): string
    requires m < |lines| && k <= |src| && k <= |dst|
    requires forall i :: 0 <= i < |src| ==> src[i] < |lines|
    decreases k
  {
    if k == 0 then lines[m].text
    else
      var text := TextAt(lines, src, dst, m, k - 1);
      if dst[k - 1] == m then Restored(text, TextAt(lines, src, dst, src[k - 1], k - 1)) else text
  }

  /** The lines `now` are the lines after `k` ranks. */
  ghost predicate TextsAre(lines: seq<Line>, now: seq<Line>, src: seq<nat>, dst: seq<nat>, k: nat)
    requires k <= |src| && k <= |dst|
    requires forall i :: 0 <= i < |src| ==> src[i] < |lines|
  {
    |now| == |lines| && forall m :: 0 <= m < |lines| ==> now[m].text == TextAt(lines, src, dst, m, k)
  }

  lemma {:induction false} PairAllTexts(lines: seq<Line>, now: seq<Line>, src: seq<nat>, dst: seq<nat>, k: nat)
    requires forall i :: 0 <= i < |src| ==> src[i] < |lines|
    requires forall i :: 0 <= i < |dst| ==> dst[i] < |lines|
    requires k <= |src| && k <= |dst| && TextsAre(lines, now, src, dst, k)
    ensures TextsAre(lines, PairAll(now, src, dst, k).0, src, dst, if |src| <= |dst| then |src| else |dst|)
    decreases |src| - k
  {
    if k < |src| && k < |dst| {
      var next := Pair(now, src[k], dst[k]);
      forall m | 0 <= m < |lines| ensures next[m].text == TextAt(lines, src, dst, m, k + 1) {
        assert now[src[k]].text == TextAt(lines, src, dst, src[k], k);
      }
      PairAllTexts(lines, next, src, dst, k + 1);
    }
  }

  /** As many destination lines as source lines, or more: no rank lacks a partner. */
  predicate Paired(c: Chunk) {
    SrcLen(c.lines) <= DstLen(c.lines)
  }

  /** The ranks at which there is a pair to compare. */
  function Ranks(c: Chunk): nat {
    if Paired(c) then SrcLen(c.lines) else DstLen(c.lines)
  }

  /** The text that the source line of rank `j` has when it is compared. */
  function ComparedText(c: Chunk, j: nat): string
    requires j < Ranks(c)
  {
    TextAt(c.lines, SrcLines(c.lines), DstLines(c.lines), SrcLines(c.lines)[j], j)
  }

  /** The texts a chunk ends up with follow from those it had. */
  lemma PassChunkTexts(c: Chunk, m: nat)
    requires m < |c.lines|
    ensures PassChunk(c).0.lines[m].text == TextAt(c.lines, SrcLines(c.lines), DstLines(c.lines), m, Ranks(c))
  {
    PairAllTexts(c.lines, c.lines, SrcLines(c.lines), DstLines(c.lines), 0);
  }

  lemma {:induction false} TextUntouched(lines: seq<Line>, src: seq<nat>, dst: seq<nat>, m: nat, k: nat, k': nat)
    requires m < |lines| && k <= k' <= |src| && k' <= |dst|
    requires forall i :: 0 <= i < |src| ==> src[i] < |lines|
    requires forall j :: k <= j < k' ==> dst[j] != m
    ensures TextAt(lines, src, dst, m, k') == TextAt(lines, src, dst, m, k)
  {
    if k < k' {
      TextUntouched(lines, src, dst, m, k, k' - 1);
    }
  }

  /**
   Main result: a destination line gets the trailing blank of the text it is compared with
   if it lacks just that, and only the comparison of its own rank can change it.
   */
  lemma PassChunkAtRank(c: Chunk, j: nat)
    requires j < Ranks(c)
    ensures var d := DstLines(c.lines)[j];
            PassChunk(c).0.lines[d].text == Restored(c.lines[d].text, ComparedText(c, j))
    ensures NewlineFree(ComparedText(c, j)) ==>
              var d, t := DstLines(c.lines)[j], ComparedText(c, j);
              var u := c.lines[d].text;
              PassChunk(c).0.lines[d].text == if t == u + " " || t == u + "\t" then t else u
  {
    var src, dst := SrcLines(c.lines), DstLines(c.lines);
    PassChunkTexts(c, dst[j]);
    TextUntouched(c.lines, src, dst, dst[j], 0, j);
    TextUntouched(c.lines, src, dst, dst[j], j + 1, Ranks(c));
    if NewlineFree(ComparedText(c, j)) {
      RestoredIs(c.lines[dst[j]].text, ComparedText(c, j));
    }
  }

  lemma PassChunkUnranked(c: Chunk, m: nat)
    requires m < |c.lines| && forall j :: 0 <= j < Ranks(c) ==> DstLines(c.lines)[j] != m
    ensures PassChunk(c).0.lines[m].text == c.lines[m].text
  {
    PassChunkTexts(c, m);
    TextUntouched(c.lines, SrcLines(c.lines), DstLines(c.lines), m, 0, Ranks(c));
  }

  /** While the ranks are gone through a text is what it was before them, or already what it will be. */
  lemma ComparedTextIs(c: Chunk, j: nat)
    requires j < Ranks(c)
    ensures var s := SrcLines(c.lines)[j];
            ComparedText(c, j) == c.lines[s].text || ComparedText(c, j) == PassChunk(c).0.lines[s].text
    ensures c.lines[SrcLines(c.lines)[j]].kind == Src ==>
              var s := SrcLines(c.lines)[j];
              ComparedText(c, j) == c.lines[s].text == PassChunk(c).0.lines[s].text
  {
    var src, dst := SrcLines(c.lines), DstLines(c.lines);
    PassChunkTexts(c, src[j]);
    if i :| 0 <= i < j && dst[i] == src[j] {
      TextUntouched(c.lines, src, dst, src[j], i + 1, j);
      TextUntouched(c.lines, src, dst, src[j], i + 1, Ranks(c));
    } else {
      TextUntouched(c.lines, src, dst, src[j], 0, j);
      if c.lines[src[j]].kind == Src {
        TextUntouched(c.lines, src, dst, src[j], 0, Ranks(c));
      }
    }
  }

  lemma {:induction false} PairAllKeepsKind(lines: seq<Line>, src: seq<nat>, dst: seq<nat>, k: nat, m: nat)
    requires forall i :: 0 <= i < |src| ==> src[i] < |lines|
    requires forall i :: 0 <= i < |dst| ==> dst[i] < |lines|
    requires m < |lines|
    ensures PairAll(lines, src, dst, k).0[m].kind == lines[m].kind
    decreases |src| - k
  {
    if k < |src| && k < |dst| {
      PairAllKeepsKind(Pair(lines, src[k], dst[k]), src, dst, k + 1, m);
    }
  }

  lemma PassChunkKeepsKind(c: Chunk, m: nat)
    requires m < |c.lines|
    ensures PassChunk(c).0.lines[m].kind == c.lines[m].kind
  {
    PairAllKeepsKind(c.lines, SrcLines(c.lines), DstLines(c.lines), 0, m);
  }

  lemma {:induction false} SameKindsSameRanks(a: seq<Line>, b: seq<Line>)
    requires |a| == |b| && forall m :: 0 <= m < |a| ==> a[m].kind == b[m].kind
    ensures SrcLines(a) == SrcLines(b) && DstLines(a) == DstLines(b)
  {
    if a != [] {
      var n := |a| - 1;
      SameKindsSameRanks(a[..n], b[..n]);
    }
  }

  lemma PassChunkKeepsRanks(c: Chunk)
    ensures SrcLines(PassChunk(c).0.lines) == SrcLines(c.lines) && DstLines(PassChunk(c).0.lines) == DstLines(c.lines)
  {
    var c' := PassChunk(c).0;
    forall m | 0 <= m < |c.lines| ensures c'.lines[m].kind == c.lines[m].kind {
      PassChunkKeepsKind(c, m);
    }
    SameKindsSameRanks(c'.lines, c.lines);
  }

  // ----- what the pass is for

  /** The source line of rank `j` is not in the destination and differs from its partner by just one trailing blank. */
  ghost predicate DiffersByBlank(c: Chunk, j: nat)
    requires j < SrcLen(c.lines) && j < DstLen(c.lines)
  {
    var s, d := c.lines[SrcLines(c.lines)[j]], c.lines[DstLines(c.lines)[j]];
    s.kind == Src && LacksBlank(d.text, s.text)
  }

  ghost predicate Resolved(c: Chunk) {
    forall j :: 0 <= j < SrcLen(c.lines) && j < DstLen(c.lines) ==> !DiffersByBlank(c, j)
  }

  ghost predicate AllResolved(patches: seq<Patch>) {
    forall i, j :: 0 <= i < |patches| && 0 <= j < |patches[i].chunks| ==> Resolved(patches[i].chunks[j])
  }

  lemma PassChunkResolves(c: Chunk)
    ensures Resolved(PassChunk(c).0)
  {
    var src, dst, c' := SrcLines(c.lines), DstLines(c.lines), PassChunk(c).0;
    PassChunkKeepsRanks(c);
    forall j | 0 <= j < |src| && j < |dst| ensures !DiffersByBlank(c', j) {
      PassChunkKeepsKind(c, src[j]);
      if c.lines[src[j]].kind == Src {
        ComparedTextIs(c, j);
        PassChunkAtRank(c, j);
      }
    }
  }

  // ----- which chunks of a set the pass reaches

  ghost predicate AllPaired(p: Patch) {
    forall c :: c in p.chunks ==> Paired(c)
  }

  /** Every chunk before this one, in the order of the set, has a partner for each of its source lines. */
  ghost predicate Reached(patches: seq<Patch>, i: nat, j: nat)
    requires i < |patches| && j < |patches[i].chunks|
  {
    (forall h :: 0 <= h < i ==> AllPaired(patches[h])) && forall h :: 0 <= h < j ==> Paired(patches[i].chunks[h])
  }

  lemma {:induction false} PairAllCompletes(lines: seq<Line>, src: seq<nat>, dst: seq<nat>, k: nat)
    requires forall i :: 0 <= i < |src| ==> src[i] < |lines|
    requires forall i :: 0 <= i < |dst| ==> dst[i] < |lines|
    ensures PairAll(lines, src, dst, k).1 <==> |src| <= |dst| || |src| <= k
    decreases |src| - k
  {
    if k < |src| && k < |dst| {
      PairAllCompletes(Pair(lines, src[k], dst[k]), src, dst, k + 1);
    }
  }

  lemma PassChunkCompletes(c: Chunk)
    ensures PassChunk(c).1 <==> Paired(c)
  {
    PairAllCompletes(c.lines, SrcLines(c.lines), DstLines(c.lines), 0);
  }

  lemma PassPatchCompletes(p: Patch)
    ensures PassPatch(p).1 <==> AllPaired(p)
  {
    UntilFailureCompletes(p.chunks, PassChunk);
    forall c | c in p.chunks ensures PassChunk(c).1 <==> Paired(c) {
      PassChunkCompletes(c);
    }
  }

  lemma PassPatchAt(p: Patch, j: nat)
    requires j < |p.chunks|
    ensures PassPatch(p).0.chunks[j]
            == if forall h :: 0 <= h < j ==> Paired(p.chunks[h]) then PassChunk(p.chunks[j]).0 else p.chunks[j]
  {
    UntilFailureAt(p.chunks, PassChunk, j);
    forall h | 0 <= h < j ensures PassChunk(p.chunks[h]).1 <==> Paired(p.chunks[h]) {
      PassChunkCompletes(p.chunks[h]);
    }
  }

  /**
   Main result: a chunk is edited if no chunk before it, in the whole set, has more source
   than destination lines; from the first such chunk on, all later ones are as before.
   */
  lemma PassAt(patches: seq<Patch>, i: nat, j: nat)
    requires i < |patches| && j < |patches[i].chunks|
    ensures Pass(patches).0[i] == patches[i].(chunks := Pass(patches).0[i].chunks)
    ensures |Pass(patches).0[i].chunks| == |patches[i].chunks|
    ensures Pass(patches).0[i].chunks[j]
            == if Reached(patches, i, j) then PassChunk(patches[i].chunks[j]).0 else patches[i].chunks[j]
  {
    UntilFailureAt(patches, PassPatch, i);
    forall h | 0 <= h < i ensures PassPatch(patches[h]).1 <==> AllPaired(patches[h]) {
      PassPatchCompletes(patches[h]);
    }
    PassPatchAt(patches[i], j);
  }

  /**
   Main result: what becomes of a destination line whose partner, of text `t`, is in the
   source only, in every chunk that is reached: a text `u` that lacks just a trailing blank
   or tab of `t` becomes `t`, and any other stays.
   */
  lemma PassRestores(patches: seq<Patch>, i: nat, j: nat, r: nat)
    requires i < |patches| && j < |patches[i].chunks| && Reached(patches, i, j)
    requires var c := patches[i].chunks[j];
             r < SrcLen(c.lines) && r < DstLen(c.lines) && c.lines[SrcLines(c.lines)[r]].kind == Src
    requires NewlineFree(patches[i].chunks[j].lines[SrcLines(patches[i].chunks[j].lines)[r]].text)
    ensures j < |Pass(patches).0[i].chunks|
    ensures var c, c' := patches[i].chunks[j], Pass(patches).0[i].chunks[j];
            var t, d := c.lines[SrcLines(c.lines)[r]].text, DstLines(c.lines)[r];
            var u := c.lines[d].text;
            |c'.lines| == |c.lines| && c'.lines[d].text == if t == u + " " || t == u + "\t" then t else u
  {
    PassAt(patches, i, j);
    ComparedTextIs(patches[i].chunks[j], r);
    PassChunkAtRank(patches[i].chunks[j], r);
  }

  /** The pass runs to its end exactly if every chunk is paired, and then it has reached every chunk. */
  lemma PassCompletesIff(patches: seq<Patch>)
    ensures Pass(patches).1 <==> forall p :: p in patches ==> AllPaired(p)
    ensures Pass(patches).1 ==> forall i, j :: 0 <= i < |patches| && 0 <= j < |patches[i].chunks| ==> Reached(patches, i, j)
  {
    UntilFailureCompletes(patches, PassPatch);
    forall p | p in patches ensures PassPatch(p).1 <==> AllPaired(p) {
      PassPatchCompletes(p);
    }
    if Pass(patches).1 {
      AllReached(patches);
    }
  }

  lemma AllReached(patches: seq<Patch>)
    requires forall p :: p in patches ==> AllPaired(p)
    ensures forall i, j :: 0 <= i < |patches| && 0 <= j < |patches[i].chunks| ==> Reached(patches, i, j)
  {
    forall i | 0 <= i < |patches|
      ensures AllPaired(patches[i])
      ensures forall h :: 0 <= h < |patches[i].chunks| ==> Paired(patches[i].chunks[h])
    {
      assert patches[i] in patches;
      assert forall h :: 0 <= h < |patches[i].chunks| ==> patches[i].chunks[h] in patches[i].chunks;
    }
  }

  /** A chunk the pass does not reach, with a blank left to restore. */
  ghost predicate LeftBehind(patches: seq<Patch>, i: nat, j: nat)
    requires i < |patches| && j < |patches[i].chunks|
  {
    !Reached(patches, i, j) && !Resolved(patches[i].chunks[j])
  }

  /**
   Main result, with its exact condition: what the pass is for. Afterwards no source-only
   line of the set differs from its partner by just one trailing blank, if and only if
   there was none behind the first chunk with more source than destination lines.
   */
  lemma PassResolvesIff(patches: seq<Patch>)
    ensures AllResolved(Pass(patches).0) <==>
            forall i, j :: 0 <= i < |patches| && 0 <= j < |patches[i].chunks| ==> !LeftBehind(patches, i, j)
  {
    var passed := Pass(patches).0;
    forall i, j | 0 <= i < |patches| && 0 <= j < |patches[i].chunks|
      ensures |passed[i].chunks| == |patches[i].chunks|
      ensures Resolved(passed[i].chunks[j]) <==> !LeftBehind(patches, i, j)
    {
      PassAt(patches, i, j);
      PassChunkResolves(patches[i].chunks[j]);
    }
    forall i | 0 <= i < |patches| ensures |passed[i].chunks| == |patches[i].chunks| {
      PassCounts(patches, i);
    }
  }

  lemma PassCounts(patches: seq<Patch>, i: nat)
    requires i < |patches|
    ensures |Pass(patches).0[i].chunks| == |patches[i].chunks|
  {
    UntilFailureAt(patches, PassPatch, i);
  }

  lemma RanksOfOne(l: Line)
    ensures SrcLines([l]) == (if l.IsSrc() then [0] else []) && DstLines([l]) == (if l.IsDst() then [0] else [])
  {
    assert [l][..0] == [];
    assert SrcLines([l][..0]) == [] && DstLines([l][..0]) == [];
  }

  lemma RanksOfPair(l0: Line, l1: Line)
    requires l0.kind == Src && l1.kind == Dst
    ensures SrcLines([l0, l1]) == [0] && DstLines([l0, l1]) == [1]
  {
    RanksOfOne(l0);
    assert [l0, l1][..1] == [l0];
    assert SrcLines([l0, l1]) == SrcLines([l0]) + [];
    assert DstLines([l0, l1]) == DstLines([l0]) + [1];
  }

  /** A hunk that only removes a line, before one that only strips a blank. */
  function UnpairedExample(): seq<Patch> {
    [Patch("a", "b", [Chunk(1, 1, [Line(Src, "x")]), Chunk(2, 2, [Line(Src, "y "), Line(Dst, "y")])])]
  }

  lemma FirstIsUnpaired()
    ensures !Paired(UnpairedExample()[0].chunks[0])
  {
    RanksOfOne(Line(Src, "x"));
  }

  lemma BlankToRestore(c: Chunk, s: Line, d: Line)
    requires s == Line(Src, "y ") && d == Line(Dst, "y") && c.lines == [s, d]
    ensures !Resolved(c)
  {
    RanksOfPair(s, d);
    assert s.text == d.text + " ";
    assert DiffersByBlank(c, 0);
  }

  /** A blank can be left behind, so the pass does not always do what it is for. */
  lemma PassCanLeaveABlank() returns (patches: seq<Patch>)
    ensures !AllResolved(Pass(patches).0)
  {
    patches := UnpairedExample();
    FirstIsUnpaired();
    BlankToRestore(patches[0].chunks[1], Line(Src, "y "), Line(Dst, "y"));
    assert LeftBehind(patches, 0, 1);
    PassResolvesIff(patches);
  }

  // ----- the shape of the result

  ghost predicate ExtendedByBlank(before: string, after: string) {
    after == before + " " || after == before + "\t"
  }

  /** Line `m` is as before, or was extended to the text of the source line of its rank. */
  ghost predicate LineFate(lines: seq<Line>, lines': seq<Line>, src: seq<nat>, dst: seq<nat>, m: nat)
    requires m < |lines| == |lines'|
    requires forall i :: 0 <= i < |src| ==> src[i] < |lines|
  {
    && lines'[m].kind == lines[m].kind
    && (lines'[m].text == lines[m].text
        || exists j :: 0 <= j < |src| && j < |dst| && dst[j] == m && Matched(lines, lines', src[j], m))
  }

  ghost predicate Matched(lines: seq<Line>, lines': seq<Line>, s: nat, m: nat)
    requires s < |lines| == |lines'| && m < |lines|
  {
    && ExtendedByBlank(lines[m].text, lines'[m].text)
    && (lines'[m].text == lines[s].text || lines'[m].text == lines'[s].text)
  }

  ghost predicate CleanLines(lines: seq<Line>) {
    forall l :: l in lines ==> NewlineFree(l.text)
  }

  lemma ComparedTextClean(c: Chunk, j: nat)
    requires CleanChunk(c) && j < Ranks(c)
    ensures NewlineFree(ComparedText(c, j))
  {
    TextClean(c.lines, SrcLines(c.lines), DstLines(c.lines), SrcLines(c.lines)[j], j);
  }

  lemma {:induction false} TextClean(lines: seq<Line>, src: seq<nat>, dst: seq<nat>, m: nat, k: nat)
    requires m < |lines| && k <= |src| && k <= |dst| && CleanLines(lines)
    requires forall i :: 0 <= i < |src| ==> src[i] < |lines|
    ensures NewlineFree(TextAt(lines, src, dst, m, k))
    decreases k
  {
    if k == 0 {
      assert lines[m] in lines;
    } else {
      TextClean(lines, src, dst, m, k - 1);
      RestoredClean(TextAt(lines, src, dst, m, k - 1), TextAt(lines, src, dst, src[k - 1], k - 1));
    }
  }

  lemma RestoredClean(text: string, source: string)
    requires NewlineFree(text)
    ensures NewlineFree(Restored(text, source))
  {
  }

  ghost predicate ChunkShape(c: Chunk, c': Chunk) {
    && c'.srcPos == c.srcPos && c'.dstPos == c.dstPos && |c'.lines| == |c.lines|
    && forall m :: 0 <= m < |c.lines| ==> LineFate(c.lines, c'.lines, SrcLines(c.lines), DstLines(c.lines), m)
  }

  ghost predicate PatchShape(p: Patch, p': Patch) {
    && p'.src == p.src && p'.dst == p.dst && |p'.chunks| == |p.chunks|
    && forall j :: 0 <= j < |p.chunks| ==> ChunkShape(p.chunks[j], p'.chunks[j])
  }

  lemma PassChunkShape(c: Chunk)
    requires CleanChunk(c)
    ensures ChunkShape(c, PassChunk(c).0) && CleanChunk(PassChunk(c).0)
  {
    var c' := PassChunk(c).0;
    forall m: nat | m < |c.lines|
      ensures LineFate(c.lines, c'.lines, SrcLines(c.lines), DstLines(c.lines), m)
      ensures NewlineFree(c'.lines[m].text)
    {
      PassChunkFate(c, m);
      PassChunkTexts(c, m);
      TextClean(c.lines, SrcLines(c.lines), DstLines(c.lines), m, Ranks(c));
    }
    assert forall l :: l in c'.lines ==> exists m :: 0 <= m < |c'.lines| && c'.lines[m] == l;
  }

  lemma PassChunkFate(c: Chunk, m: nat)
    requires CleanChunk(c) && m < |c.lines|
    ensures LineFate(c.lines, PassChunk(c).0.lines, SrcLines(c.lines), DstLines(c.lines), m)
  {
    var src, dst, lines' := SrcLines(c.lines), DstLines(c.lines), PassChunk(c).0.lines;
    PassChunkKeepsKind(c, m);
    if j :| 0 <= j < Ranks(c) && dst[j] == m {
      PassChunkAtRank(c, j);
      ComparedTextIs(c, j);
      ComparedTextClean(c, j);
      RestoredIs(c.lines[m].text, ComparedText(c, j));
      assert lines'[m].text != c.lines[m].text ==> Matched(c.lines, lines', src[j], m);
    } else {
      PassChunkUnranked(c, m);
    }
  }

  lemma UnchangedChunkShape(c: Chunk)
    ensures ChunkShape(c, c)
  {
  }

  lemma PassPatchShape(p: Patch)
    requires CleanPatch(p)
    ensures PatchShape(p, PassPatch(p).0) && CleanPatch(PassPatch(p).0)
  {
    forall j: nat | j < |p.chunks|
      ensures ChunkShape(p.chunks[j], PassPatch(p).0.chunks[j]) && CleanChunk(PassPatch(p).0.chunks[j])
    {
      assert p.chunks[j] in p.chunks;
      UntilFailureAt(p.chunks, PassChunk, j);
      UnchangedChunkShape(p.chunks[j]);
      PassChunkShape(p.chunks[j]);
    }
  }

  lemma UnchangedPatchShape(p: Patch)
    ensures PatchShape(p, p)
  {
    forall j | 0 <= j < |p.chunks| ensures ChunkShape(p.chunks[j], p.chunks[j]) {
      UnchangedChunkShape(p.chunks[j]);
    }
  }

  /**
   Main result: the pass keeps the number, order, kind and positions of everything, and a
   text is as before or was extended once, by one blank, to the text of its source line.
   */
  lemma PassKeepsShape(patches: seq<Patch>, i: nat)
    requires i < |patches| && Clean(patches)
    ensures PatchShape(patches[i], Pass(patches).0[i]) && CleanPatch(Pass(patches).0[i])
  {
    assert patches[i] in patches;
    UntilFailureAt(patches, PassPatch, i);
    UnchangedPatchShape(patches[i]);
    PassPatchShape(patches[i]);
  }

  lemma {:induction false} SameKindsSameLengths(a: seq<Line>, b: seq<Line>)
    requires |a| == |b| && forall m :: 0 <= m < |a| ==> a[m].kind == b[m].kind
    ensures SrcLen(a) == SrcLen(b) && DstLen(a) == DstLen(b)
  {
    if a != [] {
      assert forall m :: 0 <= m < |a| - 1 ==> a[1..][m] == a[m + 1] && b[1..][m] == b[m + 1];
      SameKindsSameLengths(a[1..], b[1..]);
    }
  }

  /** Main result: every hunk header is printed as it would have been without the pass. */
  lemma PassKeepsHeaders(patches: seq<Patch>, i: nat, j: nat)
    requires Clean(patches) && i < |patches| && j < |patches[i].chunks|
    ensures j < |Pass(patches).0[i].chunks|
    ensures HunkHeader(Pass(patches).0[i].chunks[j]) == HunkHeader(patches[i].chunks[j])
  {
    PassKeepsShape(patches, i);
    var c, c' := patches[i].chunks[j], Pass(patches).0[i].chunks[j];
    assert ChunkShape(c, c');
    forall m | 0 <= m < |c.lines| ensures c.lines[m].kind == c'.lines[m].kind {
      assert LineFate(c.lines, c'.lines, SrcLines(c.lines), DstLines(c.lines), m);
    }
    SameKindsSameLengths(c.lines, c'.lines);
  }
}
