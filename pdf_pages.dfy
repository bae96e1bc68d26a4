/** The two page-level operations of `PDFHandler1`: finding the pages whose
    text contains a search string, and choosing the pages `split_pdf_by_pages`
    copies into the new document.  The PDF library is not modelled: a
    document is the sequence of the texts its pages yield (`None` when a page
    yields no text) together with its page count. */
module PdfPages {
  import opened Common

  /** `if text and search_text.lower() in text.lower()`: the page has
      non-empty text that contains the search string, ignoring case. */
  predicate PageMatches(text: Option<string>, search: string)
  {
    text.Some? && text.value != "" && Contains(Lower(text.value), Lower(search))
  }

  /** `find_pages_with_text`: the 0-based indices of the matching pages, in
      ascending order, each once.  A page with no text or empty text is never
      reported, not even for an empty search string. */
  method FindPagesWithText(texts: seq<Option<string>>, search: string) returns (pages: seq<nat>)
    ensures forall a, b :: 0 <= a < b < |pages| ==> pages[a] < pages[b]
    ensures forall k :: 0 <= k < |pages| ==> pages[k] < |texts|
    ensures forall i :: 0 <= i < |texts| ==> (i in pages <==> PageMatches(texts[i], search))
  {
    pages := [];
    for i := 0 to |texts|
      invariant forall a, b :: 0 <= a < b < |pages| ==> pages[a] < pages[b]
      invariant forall k :: 0 <= k < |pages| ==> pages[k] < i
      invariant forall j :: 0 <= j < i ==> (j in pages <==> PageMatches(texts[j], search))
    {
      var text := texts[i];
      if text.Some? && text.value != "" && Contains(Lower(text.value), Lower(search)) {
        pages := pages + [i];
      }
    }
  }

  /** The numbers of a list that name a page of a document of `n` pages, in
      list order, duplicates included. */
  function InRange(ps: seq<int>, n: nat): (r: seq<int>)
    ensures |r| <= |ps|
  {
    if ps == [] then []
    else
      var k := |ps| - 1;
      InRange(ps[..k], n) + (if 0 <= ps[k] < n then [ps[k]] else [])
  }

  /** Filtering keeps the sorted order. */
  lemma {:induction false} InRangeSorted(ps: seq<int>, n: nat)
    requires SortedInts(ps)
    ensures SortedInts(InRange(ps, n))
    ensures forall k :: 0 <= k < |InRange(ps, n)| ==> exists j :: 0 <= j < |ps| && InRange(ps, n)[k] == ps[j]
  {
    if ps != [] {
      var k := |ps| - 1;
      var r0 := InRange(ps[..k], n);
      InRangeSorted(ps[..k], n);
      forall a | 0 <= a < |r0| ensures r0[a] <= ps[k] {
        var j :| 0 <= j < k && r0[a] == ps[..k][j];
      }
      forall a | 0 <= a < |r0| ensures exists j :: 0 <= j < |ps| && r0[a] == ps[j] {
        var j :| 0 <= j < k && r0[a] == ps[..k][j];
        assert r0[a] == ps[j];
      }
      assert ps[k] == ps[k];
    }
  }

  /** Filtering keeps exactly the in-range numbers, each as often as it occurs. */
  lemma {:induction false} InRangeCount(ps: seq<int>, n: nat)
    ensures forall p :: multiset(InRange(ps, n))[p] == if 0 <= p < n then multiset(ps)[p] else 0
  {
    if ps != [] {
      var k := |ps| - 1;
      InRangeCount(ps[..k], n);
      assert ps == ps[..k] + [ps[k]];
    }
  }

  /** The page selection of `split_pdf_by_pages`: the requested numbers in
      ascending order, out-of-range numbers dropped and duplicates kept; each
      number is the page copied next. */
  method SelectPages(pageNumbers: seq<int>, pageCount: nat) returns (copied: seq<int>)
    ensures SortedInts(copied)
    ensures forall p :: multiset(copied)[p] == if 0 <= p < pageCount then multiset(pageNumbers)[p] else 0
    ensures copied == InRange(SortInts(pageNumbers), pageCount)
  {
    var sorted := SortInts(pageNumbers);
    copied := [];
    for i := 0 to |sorted|
      invariant copied == InRange(sorted[..i], pageCount)
    {
      assert sorted[..i + 1][..i] == sorted[..i];
      var p := sorted[i];
      if 0 <= p < pageCount {
        copied := copied + [p];
      }
    }
    assert sorted[..|sorted|] == sorted;
    InRangeSorted(sorted, pageCount);
    InRangeCount(sorted, pageCount);
  }
}
