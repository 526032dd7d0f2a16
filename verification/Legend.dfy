/**
 The legend above the chart: a greedy line wrapper that runs once to find the height and
 once to draw. Text extents are an arbitrary non-negative function.
 */
module Legend {

  datatype Extent = Extent(width: real, height: real)

  type Measure = string -> Extent

  datatype Cursor = Cursor(lineUsed: real, lineHeight: real, totalHeight: real)

  /** The area of an entry: a square key and the text to its right. */
  datatype Box = Box(x: real, y: real, width: real, height: real)

  /** The wrapper's parameters. */
  datatype Page = Page(padding: real, width: real)

  function ItemWidth(page: Page, e: Extent): real {
    page.padding + page.padding + e.width + page.padding
  }

  function ItemHeight(page: Page, e: Extent): real {
    e.height + page.padding
  }

  function Wraps(page: Page, c: Cursor, e: Extent): bool {
    c.lineUsed + ItemWidth(page, e) > page.width
  }

  function Advance(page: Page, c: Cursor, e: Extent): Cursor {
    var height := ItemHeight(page, e);
    var lineHeight := if height > c.lineHeight then height else c.lineHeight;
    if Wraps(page, c, e) then Cursor(page.padding + ItemWidth(page, e), lineHeight, c.totalHeight + lineHeight)
    else Cursor(c.lineUsed + ItemWidth(page, e), lineHeight, c.totalHeight)
  }

  /** The cursor after the first `k` items. */
  function At(page: Page, items: seq<Extent>, k: nat): Cursor
    requires k <= |items|
  {
    if k == 0 then Cursor(page.padding, 0.0, page.padding)
    else Advance(page, At(page, items, k - 1), items[k - 1])
  }

  function WrapsAt(page: Page, items: seq<Extent>, k: nat): bool
    requires k < |items|
  {
    Wraps(page, At(page, items, k), items[k])
  }

  function BoxOf(page: Page, items: seq<Extent>, k: nat): Box
    requires k < |items|
  {
    var c := At(page, items, k + 1);
    var w := ItemWidth(page, items[k]);
    Box(c.lineUsed - w, c.totalHeight, w, ItemHeight(page, items[k]))
  }

  function Height(page: Page, items: seq<Extent>): real {
    var c := At(page, items, |items|);
    c.totalHeight + c.lineHeight
  }

  function Extents(measure: Measure, legends: seq<string>): (items: seq<Extent>)
    ensures |items| == |legends|
    ensures forall k :: 0 <= k < |items| ==> items[k] == measure(legends[k])
  {
    seq(|legends|, k requires 0 <= k < |legends| => measure(legends[k]))
  }

  /** What the drawing context is asked for: the key's square and the text's baseline. */
  datatype Mark = Mark(squareX: real, squareY: real, side: real, textX: real, textY: real, text: string)

  function MarkOf(page: Page, items: seq<Extent>, legends: seq<string>, k: nat): Mark
    requires k < |items| == |legends|
  {
    var b := BoxOf(page, items, k);
    Mark(b.x, b.y, page.padding, b.x + page.padding * 2.0, b.y + items[k].height, legends[k])
  }

  /** The marks of all entries, and where the wrapper wraps. */
  function Marks(page: Page, items: seq<Extent>, legends: seq<string>): (marks: seq<Mark>)
    requires |items| == |legends|
    ensures |marks| == |items|
    ensures forall k :: 0 <= k < |items| ==> marks[k] == MarkOf(page, items, legends, k)
  {
    seq(|items|, k requires 0 <= k < |items| => MarkOf(page, items, legends, k))
  }

  function WrapsOf(page: Page, items: seq<Extent>): (wraps: seq<bool>)
    ensures |wraps| == |items|
    ensures forall k :: 0 <= k < |items| ==> wraps[k] == WrapsAt(page, items, k)
  {
    seq(|items|, k requires 0 <= k < |items| => WrapsAt(page, items, k))
  }

  class TopLegendRenderer {
    var padding: real
    var legends: seq<string>
    var width: real
    var height: real

    constructor (legends: seq<string>)
      ensures this.legends == legends && padding == 10.0
    {
      this.legends := legends;
      padding, width, height := 10.0, 0.0, 0.0;
    }

    method SetPadding(padding: real)
      modifies this`padding
      ensures this.padding == padding
    {
      this.padding := padding;
    }

    /** Wraps the items to find the height; also tells a ghost where it wrapped. */
    method Layout(measure: Measure, width: real) returns (ghost wrapped: seq<bool>)
      modifies this`width, this`height
      ensures this.width == width
      ensures var page, items := Page(padding, width), Extents(measure, legends);
              height == Height(page, items) && wrapped == WrapsOf(page, items)
    {
      this.width := width;
      ghost var page, items := Page(padding, width), Extents(measure, legends);
      wrapped := [];
      var lineHeight, totalHeight, lineUsed := 0.0, padding, padding;
      for k := 0 to |legends|
        invariant Cursor(lineUsed, lineHeight, totalHeight) == At(page, items, k)
        invariant wrapped == WrapsOf(page, items)[..k]
      {
        var Extent(tWidth, tHeight) := measure(legends[k]);
        var itemWidth := padding + padding + tWidth + padding;
        var itemHeight := tHeight + padding;
        if itemHeight > lineHeight {
          lineHeight := itemHeight;
        }
        wrapped := wrapped + [lineUsed + itemWidth > this.width];
        if lineUsed + itemWidth > this.width {
          lineUsed := padding + itemWidth;
          totalHeight := totalHeight + lineHeight;
        } else {
          lineUsed := lineUsed + itemWidth;
        }
      }
      totalHeight := totalHeight + lineHeight;
      height := totalHeight;
    }

    /** Wraps the items again to draw them. */
    method Draw(measure: Measure) returns (marks: seq<Mark>, ghost wrapped: seq<bool>)
      ensures marks == Marks(Page(padding, width), Extents(measure, legends), legends)
      ensures wrapped == WrapsOf(Page(padding, width), Extents(measure, legends))
    {
      ghost var page, items := Page(padding, width), Extents(measure, legends);
      ghost var allMarks, allWraps := Marks(page, items, legends), WrapsOf(page, items);
      ghost var cursors := Cursors(page, items);
      marks, wrapped := [], [];
      var lineHeight, totalHeight, lineUsed := 0.0, padding, padding;
      for k := 0 to |legends|
        invariant Cursor(lineUsed, lineHeight, totalHeight) == cursors[k]
        invariant marks == allMarks[..k] && wrapped == allWraps[..k]
      {
        MarkStep(page, items, legends, k);
        var Extent(tWidth, tHeight) := measure(legends[k]);
        var itemWidth := padding + padding + tWidth + padding;
        var itemHeight := tHeight + padding;
        if itemHeight > lineHeight {
          lineHeight := itemHeight;
        }
        wrapped := wrapped + [lineUsed + itemWidth > width];
        if lineUsed + itemWidth > width {
          lineUsed := padding + itemWidth;
          totalHeight := totalHeight + lineHeight;
        } else {
          lineUsed := lineUsed + itemWidth;
        }
        var x := lineUsed - itemWidth;
        marks := marks + [Mark(x, totalHeight, padding, x + padding * 2.0, totalHeight + tHeight, legends[k])];
      }
    }
  }

  function Cursors(page: Page, items: seq<Extent>): (cursors: seq<Cursor>)
    ensures |cursors| == |items| + 1
    ensures forall k :: 0 <= k <= |items| ==> cursors[k] == At(page, items, k)
  {
    seq(|items| + 1, k requires 0 <= k <= |items| => At(page, items, k))
  }

  /** One item of the wrapper's loop. */
  lemma MarkStep(page: Page, items: seq<Extent>, legends: seq<string>, k: nat)
    requires k < |items| == |legends|
    ensures var cursors := Cursors(page, items);
            var c, c', w := cursors[k], cursors[k + 1], ItemWidth(page, items[k]);
            var x := c'.lineUsed - w;
            && c' == Advance(page, c, items[k])
            && WrapsOf(page, items)[..k + 1] == WrapsOf(page, items)[..k] + [c.lineUsed + w > page.width]
            && Marks(page, items, legends)[..k + 1] == Marks(page, items, legends)[..k]
               + [Mark(x, c'.totalHeight, page.padding, x + page.padding * 2.0, c'.totalHeight + items[k].height, legends[k])]
  {
    assert At(page, items, k + 1) == Advance(page, At(page, items, k), items[k]);
  }

  // ----- geometry

  ghost predicate NonNegative(page: Page, items: seq<Extent>) {
    page.padding >= 0.0 && forall k :: 0 <= k < |items| ==> items[k].width >= 0.0 && items[k].height >= 0.0
  }

  /** An earlier entry is above the cursor's line, or on it and left of the cursor. */
  ghost predicate Behind(b: Box, c: Cursor) {
    && b.height <= c.lineHeight
    && (b.y + b.height <= c.totalHeight || (b.y == c.totalHeight && b.x + b.width <= c.lineUsed))
  }

  lemma {:induction false} StaysBehind(page: Page, items: seq<Extent>, i: nat, k: nat)
    requires NonNegative(page, items) && i < k <= |items|
    ensures Behind(BoxOf(page, items, i), At(page, items, k))
  {
    if i < k - 1 {
      StaysBehind(page, items, i, k - 1);
    } else {
      assert At(page, items, k) == Advance(page, At(page, items, i), items[i]);
    }
  }

  /** Main result: no two entries overlap; of two, the later is below, or on the same line to the right. */
  lemma NoOverlap(page: Page, items: seq<Extent>, i: nat, k: nat)
    requires NonNegative(page, items) && i < k < |items|
    ensures var a, b := BoxOf(page, items, i), BoxOf(page, items, k);
            a.y + a.height <= b.y || (a.y == b.y && a.x + a.width <= b.x)
  {
    StaysBehind(page, items, i, k);
    var c := At(page, items, k);
    assert At(page, items, k + 1) == Advance(page, c, items[k]);
    LineHeightCovers(page, items, k);
  }

  lemma {:induction false} LineHeightCovers(page: Page, items: seq<Extent>, k: nat)
    requires NonNegative(page, items) && k <= |items|
    ensures At(page, items, k).lineHeight >= 0.0
  {
    if k > 0 {
      LineHeightCovers(page, items, k - 1);
    }
  }

  /** Main result: every entry lies above the height that layout computed. */
  lemma WithinHeight(page: Page, items: seq<Extent>, k: nat)
    requires NonNegative(page, items) && k < |items|
    ensures BoxOf(page, items, k).y >= page.padding
    ensures BoxOf(page, items, k).y + BoxOf(page, items, k).height <= Height(page, items)
  {
    StaysBehind(page, items, k, |items|);
    LineHeightCovers(page, items, |items|);
    TopPadding(page, items, k + 1);
  }

  lemma {:induction false} TopPadding(page: Page, items: seq<Extent>, k: nat)
    requires NonNegative(page, items) && k <= |items|
    ensures At(page, items, k).totalHeight >= page.padding
  {
    if k > 0 {
      TopPadding(page, items, k - 1);
      LineHeightCovers(page, items, k - 1);
    }
  }

  /** The cursor never stands left of the padding. */
  lemma {:induction false} LeftPadding(page: Page, items: seq<Extent>, k: nat)
    requires NonNegative(page, items) && k <= |items|
    ensures At(page, items, k).lineUsed >= page.padding
  {
    if k > 0 {
      LeftPadding(page, items, k - 1);
    }
  }

  /** The first entry of a line: at the left padding, with all earlier ones above. */
  ghost predicate StartsALine(page: Page, items: seq<Extent>, k: nat)
    requires k < |items|
  {
    var b := BoxOf(page, items, k);
    b.x == page.padding && forall i :: 0 <= i < k ==> BoxOf(page, items, i).y + BoxOf(page, items, i).height <= b.y
  }

  /** An entry the wrapper wraps is the first of its line. */
  lemma WrappedStartsALine(page: Page, items: seq<Extent>, k: nat)
    requires NonNegative(page, items) && k < |items| && WrapsAt(page, items, k)
    ensures StartsALine(page, items, k)
  {
    var c := At(page, items, k);
    assert At(page, items, k + 1) == Advance(page, c, items[k]);
    LineHeightCovers(page, items, k);
    forall i | 0 <= i < k ensures BoxOf(page, items, i).y + BoxOf(page, items, i).height <= BoxOf(page, items, k).y {
      StaysBehind(page, items, i, k);
    }
  }

  /**
   Main result, with its exact condition: an entry reaches past the right edge if and only
   if it is too wide for a line of its own, and then it is the first of its line.
   */
  lemma PastTheEdgeIff(page: Page, items: seq<Extent>, k: nat)
    requires NonNegative(page, items) && k < |items|
    ensures var b := BoxOf(page, items, k);
            b.x + b.width > page.width <==> page.padding + ItemWidth(page, items[k]) > page.width
    ensures page.padding + ItemWidth(page, items[k]) > page.width ==> StartsALine(page, items, k)
  {
    assert At(page, items, k + 1) == Advance(page, At(page, items, k), items[k]);
    LeftPadding(page, items, k);
    if WrapsAt(page, items, k) {
      WrappedStartsALine(page, items, k);
    }
  }

  // ----- where the marks are, from the sizes alone

  /** The height of the tallest of the first `n` texts. */
  function Tallest(items: seq<Extent>, n: nat): real
    requires 0 < n <= |items|
  {
    if n == 1 then items[0].height
    else
      var before := Tallest(items, n - 1);
      if items[n - 1].height > before then items[n - 1].height else before
  }

  lemma {:induction false} TallestIs(items: seq<Extent>, n: nat)
    requires 0 < n <= |items|
    ensures forall k :: 0 <= k < n ==> items[k].height <= Tallest(items, n)
    ensures exists k :: 0 <= k < n && items[k].height == Tallest(items, n)
  {
    if n == 1 {
      assert items[0].height == Tallest(items, 1);
    } else {
      TallestIs(items, n - 1);
      assert items[n - 1].height == Tallest(items, n) || Tallest(items, n - 1) == Tallest(items, n);
    }
  }

  lemma {:induction false} LineHeightIs(page: Page, items: seq<Extent>, n: nat)
    requires NonNegative(page, items) && 0 < n <= |items|
    ensures At(page, items, n).lineHeight == Tallest(items, n) + page.padding
  {
    assert At(page, items, n) == Advance(page, At(page, items, n - 1), items[n - 1]);
    if n > 1 {
      LineHeightIs(page, items, n - 1);
    } else {
      assert At(page, items, 0).lineHeight == 0.0;
    }
  }

  /**
   Main result: the place of a mark follows from that of the mark before it and the sizes:
   three paddings and that text's width to the right of it if this stays within the page,
   and otherwise at the left padding, a padding and the height of the tallest text so far below.
   */
  lemma MarkFollows(page: Page, items: seq<Extent>, legends: seq<string>, k: nat)
    requires NonNegative(page, items) && 0 < k < |items| == |legends|
    ensures var before, m := MarkOf(page, items, legends, k - 1), MarkOf(page, items, legends, k);
            var x := before.squareX + 3.0 * page.padding + items[k - 1].width;
            if x + 3.0 * page.padding + items[k].width <= page.width
            then m.squareX == x && m.squareY == before.squareY
            else m.squareX == page.padding && m.squareY == before.squareY + Tallest(items, k + 1) + page.padding
  {
    assert At(page, items, k) == Advance(page, At(page, items, k - 1), items[k - 1]);
    assert At(page, items, k + 1) == Advance(page, At(page, items, k), items[k]);
    LineHeightIs(page, items, k + 1);
  }

  /** Main result: where the first mark is, the shape of every mark, and the height laid out. */
  lemma FirstMarkAndShape(page: Page, items: seq<Extent>, legends: seq<string>, k: nat)
    requires NonNegative(page, items) && k < |items| == |legends|
    ensures var first, m := MarkOf(page, items, legends, 0), MarkOf(page, items, legends, k);
            && first.squareX == page.padding
            && first.squareY == page.padding + (if 4.0 * page.padding + items[0].width <= page.width then 0.0
                                                else Tallest(items, 1) + page.padding)
            && m.side == page.padding && m.textX == m.squareX + 2.0 * page.padding
            && m.textY == m.squareY + items[k].height && m.text == legends[k]
    ensures k == |items| - 1 ==>
              Height(page, items) == MarkOf(page, items, legends, k).squareY + Tallest(items, |items|) + page.padding
  {
    assert At(page, items, 0) == Cursor(page.padding, 0.0, page.padding);
    assert At(page, items, 1) == Advance(page, At(page, items, 0), items[0]);
    LineHeightIs(page, items, 1);
    LineHeightIs(page, items, |items|);
  }

  // ----- what is drawn

  /** What a mark covers: its square, and its text up to the baseline. */
  function Footprint(m: Mark, e: Extent): Box {
    Box(m.squareX, m.squareY, m.textX + e.width - m.squareX, if m.side >= e.height then m.side else e.height)
  }

  /** Square and text are within the entry, the text right of the square and on its line. */
  lemma MarkInsideBox(page: Page, items: seq<Extent>, legends: seq<string>, k: nat)
    requires NonNegative(page, items) && k < |items| == |legends|
    ensures var m, b := MarkOf(page, items, legends, k), BoxOf(page, items, k);
            var area := Footprint(m, items[k]);
            && area.x == b.x && area.y == b.y && area.x + area.width <= b.x + b.width && area.y + area.height <= b.y + b.height
            && m.squareX + m.side <= m.textX && m.textY - items[k].height == m.squareY
  {
  }

  ghost predicate Apart(a: Box, b: Box) {
    || a.y + a.height <= b.y || b.y + b.height <= a.y
    || a.x + a.width <= b.x || b.x + b.width <= a.x
  }

  /** The legend is in order: marks in the order of the texts, within the height, apart from each other. */
  ghost predicate WellDrawn(marks: seq<Mark>, items: seq<Extent>, legends: seq<string>, page: Page, height: real) {
    && |marks| == |items| == |legends|
    && (forall k :: 0 <= k < |marks| ==> marks[k].text == legends[k])
    && (forall k :: 0 <= k < |marks| ==>
          var area := Footprint(marks[k], items[k]);
          page.padding <= area.y && area.y + area.height <= height && page.padding <= area.x)
    && (forall i, k :: 0 <= i < k < |marks| ==> Apart(Footprint(marks[i], items[i]), Footprint(marks[k], items[k])))
    && (forall k :: 0 <= k < |marks| && page.padding + ItemWidth(page, items[k]) <= page.width ==>
          var area := Footprint(marks[k], items[k]);
          area.x + area.width <= page.width)
  }

  lemma BoxFromPadding(page: Page, items: seq<Extent>, k: nat)
    requires NonNegative(page, items) && k < |items|
    ensures BoxOf(page, items, k).x >= page.padding
  {
    LeftPadding(page, items, k);
    assert At(page, items, k + 1) == Advance(page, At(page, items, k), items[k]);
  }

  /** The marks of the wrapper's boxes make a legend that is in order. */
  lemma MarksAreWellDrawn(page: Page, items: seq<Extent>, legends: seq<string>, marks: seq<Mark>)
    requires NonNegative(page, items) && |marks| == |items| == |legends|
    requires forall k :: 0 <= k < |items| ==> marks[k] == MarkOf(page, items, legends, k)
    ensures WellDrawn(marks, items, legends, page, Height(page, items))
  {
    forall k | 0 <= k < |marks|
      ensures var area := Footprint(marks[k], items[k]);
              && page.padding <= area.y && area.y + area.height <= Height(page, items) && page.padding <= area.x
              && (page.padding + ItemWidth(page, items[k]) <= page.width ==> area.x + area.width <= page.width)
    {
      MarkInsideBox(page, items, legends, k);
      WithinHeight(page, items, k);
      BoxFromPadding(page, items, k);
      PastTheEdgeIff(page, items, k);
    }
    forall i, k | 0 <= i < k < |marks| ensures Apart(Footprint(marks[i], items[i]), Footprint(marks[k], items[k])) {
      MarkInsideBox(page, items, legends, i);
      MarkInsideBox(page, items, legends, k);
      NoOverlap(page, items, i, k);
    }
  }

  /** With some padding, a mark is below the one before it exactly if the wrapper wrapped in between. */
  lemma LowerIffWrapped(page: Page, items: seq<Extent>, legends: seq<string>, k: nat)
    requires NonNegative(page, items) && page.padding > 0.0 && 0 < k < |items| == |legends|
    ensures MarkOf(page, items, legends, k).squareY > MarkOf(page, items, legends, k - 1).squareY <==> WrapsAt(page, items, k)
  {
    assert At(page, items, k + 1) == Advance(page, At(page, items, k), items[k]);
    LineHeightCovers(page, items, k);
  }

  /**
   Main result: drawing agrees with the layout before it. It wraps at the same entries,
   no two marks overlap, all lie between the paddings and the height that was laid out,
   and none whose entry fits a line of its own reaches past the right edge.
   */
  method LayoutAndDraw(legend: TopLegendRenderer, measure: Measure, width: real)
    returns (marks: seq<Mark>, ghost wrapped: seq<bool>)
    requires NonNegative(Page(legend.padding, width), Extents(measure, legend.legends))
    modifies legend`width, legend`height
    ensures WellDrawn(marks, Extents(measure, legend.legends), legend.legends, Page(legend.padding, width), legend.height)
    ensures |wrapped| == |marks|
    ensures legend.padding > 0.0 ==>
              forall k :: 0 < k < |marks| ==> (marks[k].squareY > marks[k - 1].squareY <==> wrapped[k])
  {
    wrapped := legend.Layout(measure, width);
    ghost var drawn;
    marks, drawn := legend.Draw(measure);
    assert drawn == wrapped;
    ghost var page, items := Page(legend.padding, width), Extents(measure, legend.legends);
    MarksAreWellDrawn(page, items, legend.legends, marks);
    if legend.padding > 0.0 {
      forall k | 0 < k < |marks| ensures marks[k].squareY > marks[k - 1].squareY <==> wrapped[k] {
        LowerIffWrapped(page, items, legend.legends, k);
      }
    }
  }
}
