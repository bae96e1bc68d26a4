/** `extract_highlighted_statements`: every page's yellow rectangles and
    highlighted spans, merged into lines; the lines of all pages, without
    repeated `(page, text)` pairs, cut into statements.  A document is the
    sequence of what the PDF library reports for each page. */
module PdfExtract {
  import opened Common
  import opened PdfSpans
  import opened PdfMerge
  import opened PdfStatements

  /** One page: the blocks of `get_text("dict")` and `get_drawings()`. */
  datatype Page = Page(blocks: seq<Block>, drawings: seq<Drawing>)

  function RectOf(d: Drawing): Rect
  {
    d.rect
  }

  /** The rectangles of the yellow drawings, in drawing order. */
  function YellowRects(drawings: seq<Drawing>): seq<Rect>
  {
    FilterMap(drawings, IsYellow, RectOf)
  }

  /** The merged lines of page `pageNum` (0-based). */
  function PageLines(p: Page, pageNum: nat): seq<MergedLine>
  {
    MergeLines(SortByPos(Emit(PageSpans(p.blocks), YellowRects(p.drawings), pageNum)))
  }

  /** `all_highlights`: the lines of every page, page after page. */
  function AllLines(pages: seq<Page>): seq<MergedLine>
  {
    if pages == [] then [] else AllLines(pages[..|pages| - 1]) + PageLines(pages[|pages| - 1], |pages| - 1)
  }

  /** The statements the whole pipeline yields. */
  function Statements(pages: seq<Page>, cleanup: string -> string): (r: seq<string>)
    ensures forall k :: 0 <= k < |r| ==> IsStatement(r[k])
  {
    CleanAndSplit(Dedup(AllLines(pages)), cleanup)
  }

  /** What `FindYellowRects` reports is `YellowRects`. */
  lemma YellowRectsFound(drawings: seq<Drawing>, rects: seq<Rect>)
    requires |rects| == |Positions(drawings, IsYellow)|
    requires forall k :: 0 <= k < |rects| ==> rects[k] == drawings[Positions(drawings, IsYellow)[k]].rect
    ensures rects == YellowRects(drawings)
  {
    FilterMapPositions(drawings, IsYellow, RectOf);
  }

  /** Every line of a page carries that page's 1-based number. */
  lemma PageLinesOnPage(p: Page, pageNum: nat)
    ensures forall k :: 0 <= k < |PageLines(p, pageNum)| ==> PageLines(p, pageNum)[k].page == pageNum + 1
  {
    var e := Emit(PageSpans(p.blocks), YellowRects(p.drawings), pageNum);
    var s := SortByPos(e);
    forall i | 0 <= i < |s| ensures s[i].page == pageNum + 1 {
      assert s[i] in multiset(e);
      var j :| 0 <= j < |e| && e[j] == s[i];
      EmittedHighlights(PageSpans(p.blocks), YellowRects(p.drawings), pageNum, j);
    }
    MergeOnePage(s, pageNum + 1);
  }

  /** Page numbers between 1 and `count` that never decrease. */
  ghost predicate InPageOrder(lines: seq<MergedLine>, count: nat)
  {
    && (forall k :: 0 <= k < |lines| ==> 1 <= lines[k].page <= count)
    && (forall a, b :: 0 <= a < b < |lines| ==> lines[a].page <= lines[b].page)
  }

  lemma InPageOrderAppend(front: seq<MergedLine>, last: seq<MergedLine>, count: nat)
    requires InPageOrder(front, count)
    requires forall k :: 0 <= k < |last| ==> last[k].page == count + 1
    ensures InPageOrder(front + last, count + 1)
  {
    var all := front + last;
    forall k | 0 <= k < |all| ensures 1 <= all[k].page <= count + 1 && (k >= |front| ==> all[k].page == count + 1) {
      if k >= |front| {
        assert all[k] == last[k - |front|];
      } else {
        assert all[k] == front[k];
      }
    }
  }

  /** The collected lines come page by page: their page numbers lie between
      1 and the page count and never decrease. */
  lemma {:induction false} AllLinesInPageOrder(pages: seq<Page>)
    ensures InPageOrder(AllLines(pages), |pages|)
  {
    if pages != [] {
      var n := |pages| - 1;
      AllLinesInPageOrder(pages[..n]);
      PageLinesOnPage(pages[n], n);
      InPageOrderAppend(AllLines(pages[..n]), PageLines(pages[n], n), n);
    }
  }

  /** `extract_highlighted_statements`, from the pages on. */
  method ExtractHighlightedStatements(pages: seq<Page>, cleanup: string -> string) returns (statements: seq<string>)
    ensures statements == Statements(pages, cleanup)
  {
    var allHighlights: seq<MergedLine> := [];
    for pageNum := 0 to |pages|
      invariant allHighlights == AllLines(pages[..pageNum])
    {
      assert pages[..pageNum + 1][..pageNum] == pages[..pageNum];
      var page := pages[pageNum];
      var yellowRects := FindYellowRects(page.drawings);
      YellowRectsFound(page.drawings, yellowRects);
      var highlightedSpans := ExtractHighlightedSpans(page.blocks, yellowRects, pageNum);
      var mergedHighlights := MergeSpansOnLine(highlightedSpans);
      allHighlights := allHighlights + mergedHighlights;
    }
    assert pages[..|pages|] == pages;
    var uniqueHighlights := RemoveDuplicates(allHighlights);
    statements := CleanAndSplit(uniqueHighlights, cleanup);
  }
}
