/** `_merge_spans_on_line`: the highlighted spans of a page are sorted by
    their vertical and then horizontal position, and spans whose top lies
    within the threshold of the top of the first span of the current line
    are joined into that line with single spaces. */
module PdfMerge {
  import opened Common
  import opened PdfSpans

  /** One entry of `merged_highlights`: 'page', 'text' and 'y_pos'. */
  datatype MergedLine = MergedLine(page: int, text: string, yPos: real)

  /** The default `y_threshold`. */
  const YThreshold: real := 2.0

  function Abs(x: real): real
  {
    if x < 0.0 then -x else x
  }

  // ---------------------------------------------------------------------------
  // sort(key=lambda x: (x['y_pos'], x['bbox'][0]))
  // ---------------------------------------------------------------------------

  /** The sort key comparison: by `y_pos`, then by the left edge of the box. */
  predicate KeyLe(a: Highlight, b: Highlight)
  {
    a.yPos < b.yPos || (a.yPos == b.yPos && a.bbox.x0 <= b.bbox.x0)
  }

  ghost predicate SortedByPos(s: seq<Highlight>)
  {
    forall i, j :: 0 <= i < j < |s| ==> KeyLe(s[i], s[j])
  }

  /** Inserts `h` before the first element whose key is not smaller, so that
      equal keys keep their input order. */
  function InsertByPos(h: Highlight, s: seq<Highlight>): (r: seq<Highlight>)
    requires SortedByPos(s)
    ensures SortedByPos(r) && multiset(r) == multiset(s) + multiset{h}
    ensures r != [] && (r[0] == h || (s != [] && r[0] == s[0]))
  {
    if s == [] then [h]
    else if KeyLe(h, s[0]) then
      SortedByPosCons(h, s);
      [h] + s
    else
      var t := InsertByPos(h, s[1..]);
      assert s == [s[0]] + s[1..];
      assert KeyLe(s[0], t[0]) by {
        if t[0] != h { assert t[0] == s[1]; }
      }
      SortedByPosCons(s[0], t);
      [s[0]] + t
  }

  lemma SortedByPosCons(h: Highlight, s: seq<Highlight>)
    requires SortedByPos(s) && (s == [] || KeyLe(h, s[0]))
    ensures SortedByPos([h] + s)
  {
    var r := [h] + s;
    forall i, j | 0 <= i < j < |r| ensures KeyLe(r[i], r[j]) {
      if i == 0 {
        assert r[j] == s[j - 1];
        assert KeyLe(s[0], s[j - 1]) || j == 1;
      } else {
        assert r[i] == s[i - 1] && r[j] == s[j - 1];
      }
    }
  }

  /** The list after the stable sort: ordered by key, with the same elements. */
  function SortByPos(s: seq<Highlight>): (r: seq<Highlight>)
    ensures SortedByPos(r) && multiset(r) == multiset(s)
  {
    if s == [] then []
    else
      assert s == [s[0]] + s[1..];
      InsertByPos(s[0], SortByPos(s[1..]))
  }

  /** The spans of `s` whose sort key is `(y, x0)`, in their order in `s`. */
  function WithKey(s: seq<Highlight>, y: real, x0: real): (r: seq<Highlight>)
    ensures |r| <= |s|
  {
    if s == [] then []
    else (if s[0].yPos == y && s[0].bbox.x0 == x0 then [s[0]] else []) + WithKey(s[1..], y, x0)
  }

  lemma WithKeyCons(h: Highlight, s: seq<Highlight>, y: real, x0: real)
    ensures WithKey([h] + s, y, x0) == (if h.yPos == y && h.bbox.x0 == x0 then [h] else []) + WithKey(s, y, x0)
  {
    assert ([h] + s)[0] == h;
    assert ([h] + s)[1..] == s;
  }

  /** Inserting a span puts it before every span of equal key, and leaves
      the spans of every other key as they were. */
  lemma {:induction false} InsertStable(h: Highlight, s: seq<Highlight>, y: real, x0: real)
    requires SortedByPos(s)
    ensures WithKey(InsertByPos(h, s), y, x0) ==
            (if h.yPos == y && h.bbox.x0 == x0 then [h] else []) + WithKey(s, y, x0)
  {
    if s == [] {
      WithKeyCons(h, [], y, x0);
      assert [h] + [] == [h];
    } else if KeyLe(h, s[0]) {
      assert InsertByPos(h, s) == [h] + s;
      WithKeyCons(h, s, y, x0);
    } else {
      var t := InsertByPos(h, s[1..]);
      assert InsertByPos(h, s) == [s[0]] + t;
      assert s == [s[0]] + s[1..];
      WithKeyCons(s[0], t, y, x0);
      WithKeyCons(s[0], s[1..], y, x0);
      InsertStable(h, s[1..], y, x0);
    }
  }

  /** The sort is stable: for every key, the spans with that key come out in
      the order they came in. */
  lemma {:induction false} SortStable(s: seq<Highlight>, y: real, x0: real)
    ensures WithKey(SortByPos(s), y, x0) == WithKey(s, y, x0)
  {
    if s != [] {
      SortStable(s[1..], y, x0);
      InsertStable(s[0], SortByPos(s[1..]), y, x0);
    }
  }

  // ---------------------------------------------------------------------------
  // The merge loop
  // ---------------------------------------------------------------------------

  /** The loop's variables: the finished lines and `current_line`. */
  datatype MergeState = MergeState(done: seq<MergedLine>, current: Option<MergedLine>)

  function StartLine(h: Highlight): MergedLine
  {
    MergedLine(h.page, h.text, h.yPos)
  }

  /** One iteration: the first span opens a line; a span whose top is within
      the threshold of the current line's top joins it; any other span closes
      the current line and opens a new one. */
  function MergeStep(st: MergeState, h: Highlight): MergeState
  {
    match st.current
    case None => MergeState(st.done, Some(StartLine(h)))
    case Some(c) =>
      if Abs(h.yPos - c.yPos) < YThreshold then MergeState(st.done, Some(c.(text := c.text + " " + h.text)))
      else MergeState(st.done + [c], Some(StartLine(h)))
  }

  function MergeFold(s: seq<Highlight>): MergeState
  {
    if s == [] then MergeState([], None) else MergeStep(MergeFold(s[..|s| - 1]), s[|s| - 1])
  }

  /** `if current_line: merged_highlights.append(current_line)`. */
  function Finish(st: MergeState): seq<MergedLine>
  {
    if st.current.Some? then st.done + [st.current.value] else st.done
  }

  /** The lines the merge produces from an already sorted list: none from
      no spans, otherwise between one line and as many lines as spans. */
  function MergeLines(s: seq<Highlight>): (r: seq<MergedLine>)
    ensures s == [] ==> r == []
    ensures s != [] ==> 1 <= |r| <= |s|
  {
    FoldShape(s);
    Finish(MergeFold(s))
  }

  function LineTexts(ls: seq<MergedLine>): (r: seq<string>)
    ensures |r| == |ls| && forall k :: 0 <= k < |ls| ==> r[k] == ls[k].text
  {
    seq(|ls|, k requires 0 <= k < |ls| => ls[k].text)
  }

  function SpanTexts(s: seq<Highlight>): (r: seq<string>)
    ensures |r| == |s| && forall k :: 0 <= k < |s| ==> r[k] == s[k].text
  {
    seq(|s|, k requires 0 <= k < |s| => s[k].text)
  }

  /** The current line is open exactly when some span has been read, and
      there are never more lines than spans. */
  lemma {:induction false} FoldShape(s: seq<Highlight>)
    ensures MergeFold(s).current.Some? <==> s != []
    ensures |Finish(MergeFold(s))| <= |s|
  {
    if s != [] {
      FoldShape(s[..|s| - 1]);
    }
  }

  /** One span more: it joins the last line when its top lies within the
      threshold of that line's top (the top of the line's first span), and
      opens a new last line otherwise. */
  lemma MergeExtend(s: seq<Highlight>, h: Highlight)
    requires s != []
    ensures var out := MergeLines(s);
            var last := out[|out| - 1];
            && (Abs(h.yPos - last.yPos) < YThreshold ==>
                  MergeLines(s + [h]) == out[..|out| - 1] + [last.(text := last.text + " " + h.text)])
            && (Abs(h.yPos - last.yPos) >= YThreshold ==>
                  MergeLines(s + [h]) == out + [StartLine(h)])
  {
    FoldShape(s);
    assert (s + [h])[..|s|] == s;
    var st := MergeFold(s);
    var c := st.current.value;
    assert MergeFold(s + [h]) == MergeStep(st, h);
    assert MergeLines(s) == st.done + [c];
    assert (st.done + [c])[..|st.done|] == st.done;
    if Abs(h.yPos - c.yPos) < YThreshold {
      assert MergeLines(s + [h]) == st.done + [c.(text := c.text + " " + h.text)];
    } else {
      assert MergeLines(s + [h]) == (st.done + [c]) + [StartLine(h)];
    }
  }

  /** Joining with a space after one part more. */
  lemma JoinSnoc(ps: seq<string>, x: string)
    requires ps != []
    ensures Join(" ", ps + [x]) == Join(" ", ps) + " " + x
    decreases |ps|
  {
    if |ps| == 1 {
      assert ps + [x] == [ps[0]] + [x];
      JoinCons(" ", ps[0], [x]);
    } else {
      assert ps + [x] == [ps[0]] + (ps[1..] + [x]);
      JoinCons(" ", ps[0], ps[1..] + [x]);
      JoinSnoc(ps[1..], x);
      JoinCons(" ", ps[0], ps[1..]);
      assert ps == [ps[0]] + ps[1..];
    }
  }

  /** Extending the last part by a space and more text extends the join. */
  lemma JoinExtendLast(ps: seq<string>, x: string, t: string)
    ensures Join(" ", ps + [x + " " + t]) == Join(" ", ps + [x]) + " " + t
  {
    if ps == [] {
      assert ps + [x + " " + t] == [x + " " + t];
      assert ps + [x] == [x];
    } else {
      JoinSnoc(ps, x + " " + t);
      JoinSnoc(ps, x);
    }
  }

  /** Nothing is lost or added: the lines' texts joined by spaces are the
      spans' texts joined by spaces, in the same order. */
  lemma {:induction false} MergeKeepsText(s: seq<Highlight>)
    ensures Join(" ", LineTexts(MergeLines(s))) == Join(" ", SpanTexts(s))
  {
    if s != [] {
      var n := |s| - 1;
      var p, h := s[..n], s[n];
      assert s == p + [h];
      if p == [] {
        assert MergeFold(p) == MergeState([], None);
        assert MergeLines(s) == [StartLine(h)];
        assert LineTexts([StartLine(h)]) == [h.text];
        assert SpanTexts(s) == [h.text];
      } else {
        MergeKeepsText(p);
        KeepsTextStep(p, h);
      }
    }
  }

  lemma KeepsTextStep(p: seq<Highlight>, h: Highlight)
    requires p != []
    requires Join(" ", LineTexts(MergeLines(p))) == Join(" ", SpanTexts(p))
    ensures Join(" ", LineTexts(MergeLines(p + [h]))) == Join(" ", SpanTexts(p + [h]))
  {
    assert SpanTexts(p + [h]) == SpanTexts(p) + [h.text];
    JoinSnoc(SpanTexts(p), h.text);
    MergeExtend(p, h);
    var out := MergeLines(p);
    var last := out[|out| - 1];
    if Abs(h.yPos - last.yPos) < YThreshold {
      JoinedLine(out, h.text);
    } else {
      assert LineTexts(out + [StartLine(h)]) == LineTexts(out) + [h.text];
      JoinSnoc(LineTexts(out), h.text);
    }
  }

  /** Appending text to the last line appends it to the joined texts. */
  lemma JoinedLine(out: seq<MergedLine>, t: string)
    requires out != []
    ensures var last := out[|out| - 1];
            Join(" ", LineTexts(out[..|out| - 1] + [last.(text := last.text + " " + t)]))
              == Join(" ", LineTexts(out)) + " " + t
  {
    var last := out[|out| - 1];
    var front := out[..|out| - 1];
    assert out == front + [last];
    assert LineTexts(out) == LineTexts(front) + [last.text];
    assert LineTexts(front + [last.(text := last.text + " " + t)]) == LineTexts(front) + [last.text + " " + t];
    JoinExtendLast(LineTexts(front), last.text, t);
  }

  /** The tops of successive lines are at least the threshold apart, and each
      line's top is the top of one of the spans. */
  lemma {:induction false} MergeLineTops(s: seq<Highlight>)
    ensures var out := MergeLines(s);
            && (forall k :: 0 <= k < |out| - 1 ==> Abs(out[k + 1].yPos - out[k].yPos) >= YThreshold)
            && (forall k :: 0 <= k < |out| ==> exists i :: 0 <= i < |s| && out[k].yPos == s[i].yPos)
  {
    if s != [] {
      var n := |s| - 1;
      var p, h := s[..n], s[n];
      assert s == p + [h];
      if p == [] {
        assert MergeFold(p) == MergeState([], None);
        assert MergeLines(s) == [StartLine(h)];
      } else {
        MergeLineTops(p);
        MergeExtend(p, h);
        var out := MergeLines(p);
        var r := MergeLines(s);
        forall k | 0 <= k < |r| ensures exists i :: 0 <= i < |s| && r[k].yPos == s[i].yPos {
          if k < |out| {
            var i :| 0 <= i < |p| && out[k].yPos == p[i].yPos;
            assert r[k].yPos == s[i].yPos;
          } else {
            assert r[k].yPos == s[n].yPos;
          }
        }
      }
    }
  }

  /** Spans that all lie on one page give lines of that page. */
  lemma {:induction false} MergeOnePage(s: seq<Highlight>, page: int)
    requires forall i :: 0 <= i < |s| ==> s[i].page == page
    ensures forall k :: 0 <= k < |MergeLines(s)| ==> MergeLines(s)[k].page == page
  {
    if s != [] {
      var n := |s| - 1;
      var p, h := s[..n], s[n];
      assert s == p + [h];
      if p == [] {
        assert MergeFold(p) == MergeState([], None);
        assert MergeLines(s) == [StartLine(h)];
      } else {
        MergeOnePage(p, page);
        MergeExtend(p, h);
      }
    }
  }

  /** On a sorted list the line tops ascend, each at least the threshold
      above the one before. */
  lemma MergeTopsAscend(s: seq<Highlight>)
    requires SortedByPos(s)
    ensures var out := MergeLines(s);
            forall k :: 0 <= k < |out| - 1 ==> out[k].yPos + YThreshold <= out[k + 1].yPos
  {
    MergeTopsAscendFrom(s);
  }

  lemma {:induction false} MergeTopsAscendFrom(s: seq<Highlight>)
    requires SortedByPos(s)
    ensures var out := MergeLines(s);
            forall k :: 0 <= k < |out| - 1 ==> out[k].yPos + YThreshold <= out[k + 1].yPos
  {
    if |s| > 1 {
      var n := |s| - 1;
      var p, h := s[..n], s[n];
      assert s == p + [h];
      MergeTopsAscendFrom(p);
      MergeLineTops(p);
      MergeExtend(p, h);
      var out := MergeLines(p);
      var last := out[|out| - 1];
      var i :| 0 <= i < |p| && last.yPos == p[i].yPos;
      assert KeyLe(s[i], s[n]);
      assert last.yPos <= h.yPos;
      var r := MergeLines(s);
      if Abs(h.yPos - last.yPos) < YThreshold {
        assert |r| == |out|;
        assert forall k :: 0 <= k < |r| ==> r[k].yPos == out[k].yPos;
      } else {
        assert r == out + [StartLine(h)];
        forall k | 0 <= k < |r| - 1 ensures r[k].yPos + YThreshold <= r[k + 1].yPos {
          if k < |out| - 1 {
            assert r[k] == out[k] && r[k + 1] == out[k + 1];
          } else {
            assert r[k] == last && r[k + 1] == StartLine(h);
          }
        }
      }
    }
  }

  /** `_merge_spans_on_line`: the spans sorted by position and folded into
      lines.  The source sorts the caller's list in place; here the sorted
      list is a value of its own. */
  method MergeSpansOnLine(spans: seq<Highlight>) returns (merged: seq<MergedLine>)
    ensures merged == MergeLines(SortByPos(spans))
  {
    var sorted := SortByPos(spans);
    merged := [];
    var current: Option<MergedLine> := None;
    for i := 0 to |sorted|
      invariant MergeFold(sorted[..i]) == MergeState(merged, current)
    {
      assert sorted[..i + 1][..i] == sorted[..i];
      var span := sorted[i];
      if current.None? {
        current := Some(MergedLine(span.page, span.text, span.yPos));
      } else if Abs(span.yPos - current.value.yPos) < YThreshold {
        current := Some(current.value.(text := current.value.text + " " + span.text));
      } else {
        merged := merged + [current.value];
        current := Some(MergedLine(span.page, span.text, span.yPos));
      }
    }
    assert sorted[..|sorted|] == sorted;
    if current.Some? {
      merged := merged + [current.value];
    }
  }
}
