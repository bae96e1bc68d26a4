/** The span-level steps of `PDFHandler1.extract_highlighted_statements`:
    the yellow fills among a page's drawings, the numeric-noise test, and the
    spans of the page's text that fall under a yellow fill.  What the PDF
    library reports for a page is taken as given: drawings with an optional
    RGB fill and a rectangle, and text blocks made of lines of spans, each
    with its text and bounding box.  Coordinates and colour components are
    modelled as reals. */
module PdfSpans {
  import opened Common

  datatype Rect = Rect(x0: real, y0: real, x1: real, y1: real)

  datatype Rgb = Rgb(r: real, g: real, b: real)

  /** A drawing of `page.get_drawings()`: its fill colour (`None` when it is
      not filled) and its rectangle. */
  datatype Drawing = Drawing(fill: Option<Rgb>, rect: Rect)

  datatype Span = Span(text: string, bbox: Rect)

  datatype Line = Line(spans: seq<Span>)

  /** A block of `get_text("dict")`: text blocks carry lines, image blocks do not. */
  datatype Block = TextBlock(lines: seq<Line>) | ImageBlock

  /** One entry of `highlighted_spans`: 'page', 'text', 'bbox' and 'y_pos'. */
  datatype Highlight = Highlight(page: int, text: string, bbox: Rect, yPos: real)

  // ---------------------------------------------------------------------------
  // Yellow fills
  // ---------------------------------------------------------------------------

  /** A filled drawing whose colour has r > 0.8, g > 0.8 and b < 0.5. */
  predicate IsYellow(d: Drawing)
  {
    d.fill.Some? && d.fill.value.r > 0.8 && d.fill.value.g > 0.8 && d.fill.value.b < 0.5
  }

  /** `_find_yellow_rectangles`: the rectangles of the yellow drawings, in
      drawing order, one per yellow drawing and nothing else. */
  method FindYellowRects(drawings: seq<Drawing>) returns (rects: seq<Rect>)
    ensures |rects| == |Positions(drawings, IsYellow)|
    ensures forall k :: 0 <= k < |rects| ==> rects[k] == drawings[Positions(drawings, IsYellow)[k]].rect
  {
    rects := [];
    for i := 0 to |drawings|
      invariant |rects| == |Positions(drawings[..i], IsYellow)|
      invariant forall k :: 0 <= k < |rects| ==> rects[k] == drawings[Positions(drawings[..i], IsYellow)[k]].rect
    {
      assert drawings[..i + 1][..i] == drawings[..i];
      var d := drawings[i];
      if d.fill.Some? {
        var c := d.fill.value;
        if c.r > 0.8 && c.g > 0.8 && c.b < 0.5 {
          rects := rects + [d.rect];
        }
      }
    }
    assert drawings[..|drawings|] == drawings;
  }

  /** The rectangles found are exactly those of the yellow drawings. */
  lemma YellowRectsExactly(drawings: seq<Drawing>, i: nat)
    requires i < |drawings|
    ensures IsYellow(drawings[i]) <==> i in Positions(drawings, IsYellow)
  {
    PositionsComplete(drawings, IsYellow);
  }

  // ---------------------------------------------------------------------------
  // The numeric-noise test
  // ---------------------------------------------------------------------------

  /** The characters the pattern `\s+\d+\s*%` is made of. */
  predicate StatChar(c: char)
  {
    IsSpace(c) || IsDigit(c) || c == '%'
  }

  function Inc(r: Option<nat>): Option<nat>
  {
    if r.Some? then Some(r.value + 1) else None
  }

  /** The length of the match of `\s+\d+\s*%` at the start of `s`, read
      by the pattern's four phases: 0 before the first whitespace, 1 in the
      leading whitespace, 2 in the digits, 3 in the whitespace before `%`.
      The classes are disjoint, so the greedy runs never give characters
      back and the match, when there is one, is unique. */
  function MatchFrom(s: string, phase: nat): (r: Option<nat>)
    requires phase <= 3
    ensures r.Some? ==> 1 <= r.value <= |s|
  {
    if s == [] then None
    else if phase == 0 then
      (if IsSpace(s[0]) then Inc(MatchFrom(s[1..], 1)) else None)
    else if phase == 1 then
      (if IsSpace(s[0]) then Inc(MatchFrom(s[1..], 1))
       else if IsDigit(s[0]) then Inc(MatchFrom(s[1..], 2)) else None)
    else if phase == 2 then
      (if IsDigit(s[0]) then Inc(MatchFrom(s[1..], 2))
       else if IsSpace(s[0]) then Inc(MatchFrom(s[1..], 3))
       else if s[0] == '%' then Some(1) else None)
    else
      (if IsSpace(s[0]) then Inc(MatchFrom(s[1..], 3))
       else if s[0] == '%' then Some(1) else None)
  }

  /** A match consists of whitespace, digits and `%` only. */
  lemma {:induction false} MatchChars(s: string, phase: nat)
    requires phase <= 3 && MatchFrom(s, phase).Some?
    ensures forall k :: 0 <= k < MatchFrom(s, phase).value ==> StatChar(s[k])
  {
    var n := MatchFrom(s, phase).value;
    if n > 1 {
      var next := if IsSpace(s[0]) then (if phase == 0 then 1 else if phase <= 1 then 1 else 3)
                  else 2;
      assert MatchFrom(s[1..], next).Some? && MatchFrom(s[1..], next).value == n - 1;
      MatchChars(s[1..], next);
      forall k | 1 <= k < n ensures StatChar(s[k]) {
        assert s[k] == s[1..][k - 1];
      }
    }
  }

  /** `re.sub(r'\s+\d+\s*%', '', s)`: scanning from the left, every match
      is removed and the scan goes on after it; any other character is kept. */
  function RemovePercentStats(s: string): string
    decreases |s|
  {
    if s == [] then []
    else
      match MatchFrom(s, 0)
      case Some(n) => RemovePercentStats(s[n..])
      case None => [s[0]] + RemovePercentStats(s[1..])
  }

  /** `s.replace(' ', '')`. */
  function RemoveBlanks(s: string): (r: string)
    ensures forall c :: c in s && c != ' ' ==> c in r
  {
    if s == [] then [] else (if s[0] == ' ' then [] else [s[0]]) + RemoveBlanks(s[1..])
  }

  /** `_is_numeric_span`. */
  predicate IsNumericSpan(text: string)
  {
    IsDigits(RemoveBlanks(Strip(RemovePercentStats(text))))
  }

  /** The substitution never removes a character that is not whitespace, a
      digit or `%`. */
  lemma {:induction false} RemovePercentKeeps(s: string, k: nat)
    requires k < |s| && !StatChar(s[k])
    ensures s[k] in RemovePercentStats(s)
    decreases |s|
  {
    match MatchFrom(s, 0)
    case Some(n) =>
      MatchChars(s, 0);
      assert s[n..][k - n] == s[k];
      RemovePercentKeeps(s[n..], k - n);
    case None =>
      if k > 0 {
        assert s[1..][k - 1] == s[k];
        RemovePercentKeeps(s[1..], k - 1);
      }
  }

  /** A text with a character other than whitespace, a digit or `%` is never
      numeric noise. */
  lemma NotNumericWithOtherChar(text: string, k: nat)
    requires k < |text| && !StatChar(text[k])
    ensures !IsNumericSpan(text)
  {
    var c := text[k];
    var r := RemovePercentStats(text);
    RemovePercentKeeps(text, k);
    var i :| 0 <= i < |r| && r[i] == c;
    StripKeeps(r, i);
    var b := RemoveBlanks(Strip(r));
    assert c in b;
    var j :| 0 <= j < |b| && b[j] == c;
    assert !IsDigit(b[j]);
  }

  /** Where there is no whitespace no match starts, and the character stays. */
  lemma RemovePercentStep(s: string)
    requires s != [] && !IsSpace(s[0])
    ensures RemovePercentStats(s) == [s[0]] + RemovePercentStats(s[1..])
  {
    assert MatchFrom(s, 0).None?;
  }

  /** Text without whitespace passes the substitution unchanged. */
  lemma {:induction false} RemovePercentKeepsPrefix(d: string, rest: string)
    requires forall k :: 0 <= k < |d| ==> !IsSpace(d[k])
    ensures RemovePercentStats(d + rest) == d + RemovePercentStats(rest)
  {
    if d == [] {
      assert d + rest == rest;
    } else {
      var s := d + rest;
      assert s[0] == d[0];
      RemovePercentStep(s);
      assert s[1..] == d[1..] + rest;
      RemovePercentKeepsPrefix(d[1..], rest);
      assert d == [d[0]] + d[1..];
      AppendAssoc([d[0]], d[1..], RemovePercentStats(rest));
    }
  }

  /** A percentage written without whitespace before its digits is never
      noise, however many digits it has. */
  lemma PercentWithoutSpaceKept(text: string)
    requires forall k :: 0 <= k < |text| ==> !IsSpace(text[k])
    requires '%' in text
    ensures !IsNumericSpan(text)
  {
    RemovePercentKeepsPrefix(text, []);
    assert text + [] == text;
    var k :| 0 <= k < |text| && text[k] == '%';
    StripKeeps(text, k);
    var b := RemoveBlanks(Strip(text));
    var j :| 0 <= j < |b| && b[j] == '%';
  }

  /** The stripped span "45%" is kept. */
  lemma PercentAloneKept()
    ensures !IsNumericSpan("45%")
  {
    PercentWithoutSpaceKept("45%");
  }

  /** Digits followed by `%` finish a match that is reading digits. */
  lemma {:induction false} MatchDigitsPercent(d: string)
    requires forall k :: 0 <= k < |d| ==> IsDigit(d[k])
    ensures MatchFrom(d + "%", 2) == Some(|d| + 1)
  {
    var s := d + "%";
    if d != [] {
      assert s[0] == d[0] && IsDigit(s[0]);
      assert s[1..] == d[1..] + "%";
      MatchDigitsPercent(d[1..]);
      assert MatchFrom(s, 2) == Inc(MatchFrom(s[1..], 2));
    } else {
      assert s == "%" && s[0] == '%';
      assert !IsDigit('%') && !IsSpace('%');
    }
  }

  /** A space, digits and `%` make one match, removed in full. */
  lemma RemoveSpacedPercentAlone(b: string)
    requires IsDigits(b)
    ensures RemovePercentStats(" " + b + "%") == []
  {
    var t := " " + b + "%";
    assert t[1..] == b + "%";
    assert t[1..][1..] == b[1..] + "%";
    MatchDigitsPercent(b[1..]);
    assert MatchFrom(t[1..], 1) == Some(|b| + 1);
    assert MatchFrom(t, 0) == Some(|b| + 2);
    assert t[|b| + 2..] == [];
  }

  lemma {:induction false} RemoveBlanksNoBlank(s: string)
    requires forall k :: 0 <= k < |s| ==> s[k] != ' '
    ensures RemoveBlanks(s) == s
  {
    if s != [] {
      RemoveBlanksNoBlank(s[1..]);
      assert s == [s[0]] + s[1..];
    }
  }

  /** A string of digits alone is noise. */
  lemma DigitsAreNoise(text: string)
    requires IsDigits(text)
    ensures IsNumericSpan(text)
  {
    RemovePercentKeepsPrefix(text, []);
    assert text + [] == text;
    assert !IsSpace(text[0]) && !IsSpace(text[|text| - 1]);
    assert TrimStart(text) == text;
    assert TrimEnd(text) == text;
    RemoveBlanksNoBlank(text);
  }

  /** A number followed by a space and a percentage is noise: the spaced
      percentage is removed and the digits remain. */
  lemma SpacedPercentIsNoise(a: string, b: string)
    requires IsDigits(a) && IsDigits(b)
    ensures IsNumericSpan(a + " " + b + "%")
  {
    var t := " " + b + "%";
    RemoveSpacedPercentAlone(b);
    assert forall k :: 0 <= k < |a| ==> !IsSpace(a[k]) by {
      forall k | 0 <= k < |a| ensures !IsSpace(a[k]) { assert IsDigit(a[k]); }
    }
    RemovePercentKeepsPrefix(a, t);
    assert a + " " + b + "%" == a + t;
    assert RemovePercentStats(a + t) == a;
    RemovePercentKeepsPrefix(a, []);
    assert a + [] == a;
    assert RemovePercentStats(a + " " + b + "%") == RemovePercentStats(a);
    DigitsAreNoise(a);
  }

  /** The span "12 34%" is noise. */
  lemma NumberWithPercentIsNoise()
    ensures IsNumericSpan("12 34%")
  {
    assert "12" + " " + "34" + "%" == "12 34%";
    SpacedPercentIsNoise("12", "34");
  }

  // ---------------------------------------------------------------------------
  // Highlighted spans
  // ---------------------------------------------------------------------------

  /** `fitz.Rect.intersects`: both rectangles are non-empty and their
      interiors overlap. */
  predicate Intersects(a: Rect, b: Rect)
  {
    a.x0 < a.x1 && a.y0 < a.y1 && b.x0 < b.x1 && b.y0 < b.y1
    && a.x0 < b.x1 && b.x0 < a.x1 && a.y0 < b.y1 && b.y0 < a.y1
  }

  predicate HitsAny(r: Rect, rects: seq<Rect>)
  {
    exists k :: 0 <= k < |rects| && Intersects(r, rects[k])
  }

  /** A span is reported when its stripped text is non-empty, its box meets
      some yellow rectangle and the text is not numeric noise.  The first
      rectangle it meets ends the search, so it is reported at most once. */
  predicate Emitted(rects: seq<Rect>, sp: Span)
  {
    Strip(sp.text) != "" && HitsAny(sp.bbox, rects) && !IsNumericSpan(Strip(sp.text))
  }

  function EmittedBy(rects: seq<Rect>): Span -> bool
  {
    sp => Emitted(rects, sp)
  }

  function ToHighlight(sp: Span, pageNum: int): Highlight
  {
    Highlight(pageNum + 1, Strip(sp.text), sp.bbox, sp.bbox.y0)
  }

  /** The spans of some lines, in reading order. */
  function LineSpans(ls: seq<Line>): seq<Span>
  {
    if ls == [] then [] else LineSpans(ls[..|ls| - 1]) + ls[|ls| - 1].spans
  }

  function BlockSpans(b: Block): seq<Span>
  {
    match b
    case TextBlock(ls) => LineSpans(ls)
    case ImageBlock => []
  }

  /** The spans of a page, block by block, line by line. */
  function PageSpans(bs: seq<Block>): seq<Span>
  {
    if bs == [] then [] else PageSpans(bs[..|bs| - 1]) + BlockSpans(bs[|bs| - 1])
  }

  function HighlightOf(pageNum: int): Span -> Highlight
  {
    sp => ToHighlight(sp, pageNum)
  }

  /** The highlights `_extract_highlighted_spans` reports for some spans:
      the spans satisfying `Emitted`, in input order, each turned into a
      highlight of page `pageNum + 1`. */
  function Emit(spans: seq<Span>, rects: seq<Rect>, pageNum: int): seq<Highlight>
  {
    FilterMap(spans, EmittedBy(rects), HighlightOf(pageNum))
  }

  /** Every reported highlight has non-empty text that is not numeric noise,
      comes from a span meeting a yellow rectangle, and carries page
      `pageNum + 1` and the top of that span's box. */
  lemma EmittedHighlights(spans: seq<Span>, rects: seq<Rect>, pageNum: int, k: nat)
    requires k < |Emit(spans, rects, pageNum)|
    ensures var h := Emit(spans, rects, pageNum)[k];
            && h.text != "" && !IsNumericSpan(h.text) && h.page == pageNum + 1
            && exists i :: 0 <= i < |spans| && h.text == Strip(spans[i].text) && h.bbox == spans[i].bbox
                          && h.yPos == spans[i].bbox.y0 && HitsAny(spans[i].bbox, rects)
  {
    FilterMapPositions(spans, EmittedBy(rects), HighlightOf(pageNum));
    var i := Positions(spans, EmittedBy(rects))[k];
    assert EmittedBy(rects)(spans[i]);
  }

  lemma PageSpansSnoc(bs: seq<Block>, b: nat)
    requires b < |bs|
    ensures PageSpans(bs[..b + 1]) == PageSpans(bs[..b]) + BlockSpans(bs[b])
  {
    assert bs[..b + 1][..b] == bs[..b];
  }

  lemma LineSpansSnoc(ls: seq<Line>, l: nat)
    requires l < |ls|
    ensures LineSpans(ls[..l + 1]) == LineSpans(ls[..l]) + ls[l].spans
  {
    assert ls[..l + 1][..l] == ls[..l];
  }

  /** The loop over the yellow rectangles in `_extract_highlighted_spans`,
      which stops at the first rectangle the span's box meets. */
  method MeetsYellow(spanRect: Rect, rects: seq<Rect>) returns (hit: bool)
    ensures hit <==> HitsAny(spanRect, rects)
  {
    hit := false;
    var j := 0;
    while j < |rects|
      invariant j <= |rects|
      invariant forall k :: 0 <= k < j ==> !Intersects(spanRect, rects[k])
    {
      if Intersects(spanRect, rects[j]) {
        hit := true;
        break;
      }
      j := j + 1;
    }
  }

  /** The innermost loop of `_extract_highlighted_spans`, over the spans
      of one line: a span with non-empty stripped text is looked up against
      the yellow rectangles until the first one it meets, and reported there
      unless it is numeric noise. */
  method ExtractLineSpans(spans: seq<Span>, rects: seq<Rect>, pageNum: int) returns (hs: seq<Highlight>)
    ensures hs == Emit(spans, rects, pageNum)
  {
    hs := [];
    for s := 0 to |spans|
      invariant hs == Emit(spans[..s], rects, pageNum)
    {
      FilterMapSnoc(spans, s, EmittedBy(rects), HighlightOf(pageNum));
      var text := Strip(spans[s].text);
      if text != "" {
        var hit := MeetsYellow(spans[s].bbox, rects);
        if hit && !IsNumericSpan(text) {
          hs := hs + [Highlight(pageNum + 1, text, spans[s].bbox, spans[s].bbox.y0)];
        }
      }
    }
    assert spans[..|spans|] == spans;
  }

  /** The loop over the lines of one text block in `_extract_highlighted_spans`. */
  method ExtractBlockSpans(lines: seq<Line>, rects: seq<Rect>, pageNum: int) returns (hs: seq<Highlight>)
    ensures hs == Emit(LineSpans(lines), rects, pageNum)
  {
    hs := [];
    for l := 0 to |lines|
      invariant hs == Emit(LineSpans(lines[..l]), rects, pageNum)
    {
      LineSpansSnoc(lines, l);
      FilterMapAppend(LineSpans(lines[..l]), lines[l].spans, EmittedBy(rects), HighlightOf(pageNum));
      var found := ExtractLineSpans(lines[l].spans, rects, pageNum);
      hs := hs + found;
    }
    assert lines[..|lines|] == lines;
  }

  /** `_extract_highlighted_spans`: the blocks in reading order, each text
      block as `ExtractBlockSpans` reports it; image blocks add nothing. */
  method ExtractHighlightedSpans(blocks: seq<Block>, rects: seq<Rect>, pageNum: int) returns (hs: seq<Highlight>)
    ensures hs == Emit(PageSpans(blocks), rects, pageNum)
  {
    hs := [];
    for b := 0 to |blocks|
      invariant hs == Emit(PageSpans(blocks[..b]), rects, pageNum)
    {
      PageSpansSnoc(blocks, b);
      FilterMapAppend(PageSpans(blocks[..b]), BlockSpans(blocks[b]), EmittedBy(rects), HighlightOf(pageNum));
      if blocks[b].TextBlock? {
        var found := ExtractBlockSpans(blocks[b].lines, rects, pageNum);
        hs := hs + found;
      } else {
        assert hs + [] == hs;
      }
    }
    assert blocks[..|blocks|] == blocks;
  }
}
