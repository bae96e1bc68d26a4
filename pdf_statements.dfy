/** The last two steps of `extract_highlighted_statements`: dropping
    repeated `(page, text)` lines, and cutting the joined text into
    statements at its periods. */
module PdfStatements {
  import opened Common
  import opened PdfMerge

  // ---------------------------------------------------------------------------
  // _remove_duplicates
  // ---------------------------------------------------------------------------

  /** The identity of a highlight for de-duplication. */
  function Key(h: MergedLine): (int, string)
  {
    (h.page, h.text)
  }

  ghost function KeysOf(s: seq<MergedLine>): set<(int, string)>
  {
    set j | 0 <= j < |s| :: Key(s[j])
  }

  lemma KeysOfAppend(d: seq<MergedLine>, x: MergedLine)
    ensures KeysOf(d + [x]) == KeysOf(d) + {Key(x)}
  {
    var r := d + [x];
    assert r[..|d|] == d && r[..|d| + 1] == r;
    KeysOfSnoc(r, |d|);
  }

  lemma KeysOfSnoc(s: seq<MergedLine>, i: nat)
    requires i < |s|
    ensures KeysOf(s[..i + 1]) == KeysOf(s[..i]) + {Key(s[i])}
  {
    var a, b := KeysOf(s[..i + 1]), KeysOf(s[..i]) + {Key(s[i])};
    forall k | k in a ensures k in b {
      var j :| 0 <= j < i + 1 && Key(s[..i + 1][j]) == k;
      if j < i {
        assert Key(s[..i][j]) == k;
      }
    }
    forall k | k in b ensures k in a {
      if k != Key(s[i]) {
        var j :| 0 <= j < i && Key(s[..i][j]) == k;
        assert Key(s[..i + 1][j]) == k;
      } else {
        assert Key(s[..i + 1][i]) == k;
      }
    }
  }

  /** The highlights kept: each one whose key has not been seen before. */
  function Dedup(s: seq<MergedLine>): (r: seq<MergedLine>)
    ensures |r| <= |s|
  {
    if s == [] then []
    else
      var n := |s| - 1;
      Dedup(s[..n]) + (if Key(s[n]) in (set j | 0 <= j < n :: Key(s[j])) then [] else [s[n]])
  }

  /** The positions of the first occurrences of the keys, in order. */
  function FirstIndices(s: seq<MergedLine>): (idx: seq<nat>)
    ensures forall k :: 0 <= k < |idx| ==> idx[k] < |s|
    ensures forall a, b :: 0 <= a < b < |idx| ==> idx[a] < idx[b]
  {
    if s == [] then []
    else
      var n := |s| - 1;
      FirstIndices(s[..n]) + (if Key(s[n]) in (set j | 0 <= j < n :: Key(s[j])) then [] else [n])
  }

  lemma DedupSnoc(s: seq<MergedLine>, i: nat)
    requires i < |s|
    ensures Dedup(s[..i + 1]) == Dedup(s[..i]) + (if Key(s[i]) in KeysOf(s[..i]) then [] else [s[i]])
    ensures FirstIndices(s[..i + 1]) == FirstIndices(s[..i]) + (if Key(s[i]) in KeysOf(s[..i]) then [] else [i])
  {
    var p := s[..i + 1];
    assert p[..i] == s[..i];
    assert (set j | 0 <= j < i :: Key(p[j])) == KeysOf(s[..i]);
  }

  /** The kept highlights are the input's items at the first occurrences of
      their keys, in input order: a subsequence of the input. */
  lemma {:induction false} DedupAtFirstOccurrences(s: seq<MergedLine>)
    ensures var r, idx := Dedup(s), FirstIndices(s);
            && |r| == |idx|
            && (forall k :: 0 <= k < |r| ==> r[k] == s[idx[k]])
            && (forall k, j :: 0 <= k < |idx| && 0 <= j < idx[k] ==> Key(s[j]) != Key(s[idx[k]]))
  {
    if s != [] {
      var n := |s| - 1;
      DedupAtFirstOccurrences(s[..n]);
      DedupSnoc(s, n);
      assert s[..n + 1] == s;
      var idx0 := FirstIndices(s[..n]);
      forall k, j | 0 <= k < |idx0| && 0 <= j < idx0[k] ensures Key(s[j]) != Key(s[idx0[k]]) {
        assert s[..n][j] == s[j] && s[..n][idx0[k]] == s[idx0[k]];
      }
      if Key(s[n]) !in KeysOf(s[..n]) {
        forall j | 0 <= j < n ensures Key(s[j]) != Key(s[n]) {
          assert Key(s[..n][j]) in KeysOf(s[..n]);
        }
      }
    }
  }

  /** Every key of the input is kept. */
  lemma {:induction false} DedupKeys(s: seq<MergedLine>)
    ensures KeysOf(Dedup(s)) == KeysOf(s)
  {
    if s != [] {
      var n := |s| - 1;
      DedupKeys(s[..n]);
      DedupSnoc(s, n);
      KeysOfSnoc(s, n);
      assert s[..n + 1] == s;
      var d := Dedup(s[..n]);
      if Key(s[n]) !in KeysOf(s[..n]) {
        assert Dedup(s) == d + [s[n]];
        KeysOfAppend(d, s[n]);
        assert KeysOf(Dedup(s)) == KeysOf(d) + {Key(s[n])};
        assert KeysOf(s) == KeysOf(s[..n]) + {Key(s[n])};
      } else {
        assert Dedup(s) == d;
        assert KeysOf(s) == KeysOf(s[..n]) + {Key(s[n])} == KeysOf(s[..n]);
      }
    }
  }

  /** No two items share a key. */
  predicate DistinctKeys(s: seq<MergedLine>)
  {
    forall a, b :: 0 <= a < b < |s| ==> Key(s[a]) != Key(s[b])
  }

  /** No key is kept twice. */
  lemma {:induction false} DedupDistinct(s: seq<MergedLine>)
    ensures DistinctKeys(Dedup(s))
  {
    if s != [] {
      var n := |s| - 1;
      DedupDistinct(s[..n]);
      DedupKeys(s[..n]);
      DedupSnoc(s, n);
      assert s[..n + 1] == s;
      var d := Dedup(s[..n]);
      if Key(s[n]) !in KeysOf(s[..n]) {
        var r := d + [s[n]];
        forall a, b | 0 <= a < b < |r| ensures Key(r[a]) != Key(r[b]) {
          if b == |d| {
            assert Key(d[a]) in KeysOf(d);
          }
        }
      }
    }
  }

  /** A list without repeated keys is left as it is. */
  lemma {:induction false} DedupOfDistinct(s: seq<MergedLine>)
    requires DistinctKeys(s)
    ensures Dedup(s) == s
  {
    if s != [] {
      var n := |s| - 1;
      DedupOfDistinct(s[..n]);
      DedupSnoc(s, n);
      assert s[..n + 1] == s;
      assert Key(s[n]) !in KeysOf(s[..n]);
    }
  }

  /** Removing duplicates twice is removing them once. */
  lemma DedupIdempotent(s: seq<MergedLine>)
    ensures Dedup(Dedup(s)) == Dedup(s)
  {
    DedupDistinct(s);
    DedupOfDistinct(Dedup(s));
  }

  /** `_remove_duplicates`: a scan keeping the set of keys seen so far. */
  method RemoveDuplicates(highlights: seq<MergedLine>) returns (unique: seq<MergedLine>)
    ensures unique == Dedup(highlights)
  {
    var seen: set<(int, string)> := {};
    unique := [];
    for i := 0 to |highlights|
      invariant seen == KeysOf(highlights[..i])
      invariant unique == Dedup(highlights[..i])
    {
      DedupSnoc(highlights, i);
      KeysOfSnoc(highlights, i);
      var h := highlights[i];
      var key := (h.page, h.text);
      if key !in seen {
        seen := seen + {key};
        unique := unique + [h];
      }
    }
    assert highlights[..|highlights|] == highlights;
  }

  // ---------------------------------------------------------------------------
  // _clean_and_split_statements
  // ---------------------------------------------------------------------------

  /** `s.strip() + '.'`. */
  function Statement(part: string): string
  {
    Strip(part) + "."
  }

  /** The statements of a text: its pieces between periods that are not
      blank, stripped and closed with a period. */
  function SplitStatements(text: string): seq<string>
  {
    FilterMap(Split(text, "."), NonBlank, Statement)
  }

  /** The texts of the highlights joined with single spaces. */
  function Combined(hs: seq<MergedLine>): string
  {
    Join(" ", LineTexts(hs))
  }

  /** `_clean_and_split_statements`.  `cleanup` stands for the two
      substitutions that remove statistics from the joined text. */
  function CleanAndSplit(hs: seq<MergedLine>, cleanup: string -> string): (r: seq<string>)
    ensures forall k :: 0 <= k < |r| ==> IsStatement(r[k])
  {
    var text := cleanup(Combined(hs));
    AllStatements(text);
    SplitStatements(text)
  }

  lemma CharNotContained(s: string, c: char)
    requires !Contains(s, [c])
    ensures c !in s
  {
  }

  /** The stripped form of a piece without a period has no period. */
  lemma StripNoPeriod(part: string)
    requires !Contains(part, ".")
    ensures '.' !in Strip(part)
  {
    CharNotContained(part, '.');
    StripInfix(part);
  }

  /** A statement ends in a period, and what comes before it is non-empty,
      neither starts nor ends with whitespace, and holds no period. */
  predicate IsStatement(st: string)
  {
    && |st| >= 2 && st[|st| - 1] == '.'
    && var body := st[..|st| - 1];
       !IsSpace(body[0]) && !IsSpace(body[|body| - 1]) && '.' !in body
  }

  /** Every statement cut from a text has the shape of a statement. */
  lemma StatementShape(text: string, k: nat)
    requires k < |SplitStatements(text)|
    ensures IsStatement(SplitStatements(text)[k])
  {
    var parts := Split(text, ".");
    FilterMapPositions(parts, NonBlank, Statement);
    var i := Positions(parts, NonBlank)[k];
    assert NonBlank(parts[i]);
    StripNoPeriod(parts[i]);
    var st := SplitStatements(text)[k];
    assert st == Strip(parts[i]) + ".";
    assert st[..|st| - 1] == Strip(parts[i]);
  }

  lemma AllStatements(text: string)
    ensures forall k :: 0 <= k < |SplitStatements(text)| ==> IsStatement(SplitStatements(text)[k])
  {
    forall k | 0 <= k < |SplitStatements(text)| ensures IsStatement(SplitStatements(text)[k]) {
      StatementShape(text, k);
    }
  }

  /** The statements follow the text: the text is its pieces joined by
      periods, each non-blank piece gives one statement, and the statements
      come in the order of their pieces. */
  lemma StatementsFollowText(text: string)
    ensures var parts := Split(text, ".");
            var pos := Positions(parts, NonBlank);
            && Join(".", parts) == text
            && |SplitStatements(text)| == |pos|
            && (forall k :: 0 <= k < |pos| ==> SplitStatements(text)[k] == Statement(parts[pos[k]]))
            && (forall i :: 0 <= i < |parts| && NonBlank(parts[i]) ==> i in pos)
  {
    var parts := Split(text, ".");
    JoinSplit(text, ".");
    FilterMapPositions(parts, NonBlank, Statement);
    PositionsComplete(parts, NonBlank);
  }
}
