/** The label matcher shared by `SPSSMatchProcessor` and `SavHandler`:
    the label-to-column dictionary, whitespace/hyphen normalisation and the
    exact-then-substring column lookup. */
module LabelMatch {
  import opened Common
  import opened ODicts

  // ---------------------------------------------------------------------------
  // Normalisation: the three re.sub calls followed by strip()
  // ---------------------------------------------------------------------------

  /** `re.sub(r'\s+', ' ', s)`: every maximal run of whitespace becomes one space. */
  function CollapseSpaces(s: string): string
    decreases |s|
  {
    if s == [] then []
    else if IsSpace(s[0]) then " " + CollapseSpaces(TrimStart(s))
    else [s[0]] + CollapseSpaces(s[1..])
  }

  /** `re.sub(r'-\s+', '-', s)`: the whitespace run after each hyphen is dropped. */
  function DropSpaceAfterHyphen(s: string): string
    decreases |s|
  {
    if s == [] then []
    else if s[0] == '-' then "-" + DropSpaceAfterHyphen(TrimStart(s[1..]))
    else [s[0]] + DropSpaceAfterHyphen(s[1..])
  }

  /** `re.sub(r'\s+-', '-', s)`: a whitespace run followed by a hyphen is
      replaced by the hyphen; a run not followed by one is kept. */
  function DropSpaceBeforeHyphen(s: string): string
    decreases |s|
  {
    if s == [] then []
    else if IsSpace(s[0]) && HyphenAfterRun(s) then "-" + DropSpaceBeforeHyphen(TrimStart(s)[1..])
    else [s[0]] + DropSpaceBeforeHyphen(s[1..])
  }

  /** The first character after the leading whitespace of `s` is a hyphen. */
  predicate HyphenAfterRun(s: string)
  {
    TrimStart(s) != [] && TrimStart(s)[0] == '-'
  }

  /** `_normalize_text`.  The result has no leading or trailing whitespace,
      no two whitespace characters in a row, no whitespace but the plain
      space, and no space next to a hyphen. */
  function Normalize(s: string): (r: string)
    ensures IsNormal(r)
  {
    var a := CollapseSpaces(s);
    var b := DropSpaceAfterHyphen(a);
    var c := DropSpaceBeforeHyphen(b);
    CollapsePlain(s);
    CollapseNoDouble(s);
    DropAfterNoAfter(a);
    DropAfterPlain(a);
    DropAfterNoDouble(a);
    DropBeforeNoBefore(b);
    DropBeforePlain(b);
    DropBeforeNoDouble(b);
    DropBeforeNoAfter(b);
    StripShape(c);
    Strip(c)
  }

  // ---------------------------------------------------------------------------
  // What a normalised string looks like
  // ---------------------------------------------------------------------------

  /** The only whitespace character is the plain space. */
  ghost predicate OnlyPlainSpaces(s: string)
  {
    forall i :: 0 <= i < |s| && IsSpace(s[i]) ==> s[i] == ' '
  }

  /** No two neighbouring characters form a `bad` pair. */
  ghost predicate NoPair(s: string, bad: (char, char) -> bool)
  {
    forall i :: 0 <= i < |s| - 1 ==> !bad(s[i], s[i + 1])
  }

  predicate SpaceSpace(x: char, y: char)
  {
    IsSpace(x) && IsSpace(y)
  }

  predicate HyphenSpace(x: char, y: char)
  {
    x == '-' && IsSpace(y)
  }

  predicate SpaceHyphen(x: char, y: char)
  {
    IsSpace(x) && y == '-'
  }

  ghost predicate NoDoubleSpace(s: string)
  {
    NoPair(s, SpaceSpace)
  }

  ghost predicate NoSpaceAfterHyphen(s: string)
  {
    NoPair(s, HyphenSpace)
  }

  ghost predicate NoSpaceBeforeHyphen(s: string)
  {
    NoPair(s, SpaceHyphen)
  }

  ghost predicate NoOuterSpace(s: string)
  {
    s == [] || (!IsSpace(s[0]) && !IsSpace(s[|s| - 1]))
  }

  ghost predicate IsNormal(s: string)
  {
    OnlyPlainSpaces(s) && NoDoubleSpace(s) && NoSpaceAfterHyphen(s)
    && NoSpaceBeforeHyphen(s) && NoOuterSpace(s)
  }

  /** The non-whitespace characters of `s`, in order. */
  function NonSpace(s: string): string
  {
    if s == [] then [] else (if IsSpace(s[0]) then [] else [s[0]]) + NonSpace(s[1..])
  }

  // ---------------------------------------------------------------------------
  // Step lemmas
  // ---------------------------------------------------------------------------

  /** A pair property of a string with one character prepended. */
  lemma ConsPairs(c: char, t: string, bad: (char, char) -> bool)
    ensures NoPair([c] + t, bad) <==> (t == [] || !bad(c, t[0])) && NoPair(t, bad)
  {
    var s := [c] + t;
    if NoPair(s, bad) {
      forall i | 0 <= i < |t| - 1 ensures !bad(t[i], t[i + 1]) {
        assert t[i] == s[i + 1] && t[i + 1] == s[i + 2];
      }
      if t != [] { assert s[1] == t[0]; }
      assert (t == [] || !bad(c, t[0])) && NoPair(t, bad);
    }
    if (t == [] || !bad(c, t[0])) && NoPair(t, bad) {
      forall i | 0 <= i < |s| - 1 ensures !bad(s[i], s[i + 1]) {
        if i > 0 { assert s[i] == t[i - 1] && s[i + 1] == t[i]; }
        else { assert s[0] == c && s[1] == t[0]; }
      }
      assert NoPair(s, bad);
    }
  }

  /** `OnlyPlainSpaces` of a string with one character prepended. */
  lemma ConsPlain(c: char, t: string)
    ensures OnlyPlainSpaces([c] + t) <==> (IsSpace(c) ==> c == ' ') && OnlyPlainSpaces(t)
  {
    var s := [c] + t;
    if OnlyPlainSpaces(s) {
      forall i | 0 <= i < |t| && IsSpace(t[i]) ensures t[i] == ' ' {
        assert t[i] == s[i + 1];
      }
      assert s[0] == c;
      assert OnlyPlainSpaces(t);
    }
    if (IsSpace(c) ==> c == ' ') && OnlyPlainSpaces(t) {
      forall i | 0 <= i < |s| && IsSpace(s[i]) ensures s[i] == ' ' {
        if i > 0 { assert s[i] == t[i - 1]; } else { assert s[0] == c; }
      }
      assert OnlyPlainSpaces(s);
    }
  }

  /** `t` occurs in `s` at offset `o`. */
  ghost predicate InfixAt(t: string, s: string, o: nat)
  {
    o + |t| <= |s| && forall i :: 0 <= i < |t| ==> t[i] == s[o + i]
  }

  /** The shape predicates are inherited by every infix. */
  lemma InfixPlain(s: string, t: string, o: nat)
    requires InfixAt(t, s, o)
    ensures OnlyPlainSpaces(s) ==> OnlyPlainSpaces(t)
  {
    if OnlyPlainSpaces(s) {
      forall i | 0 <= i < |t| && IsSpace(t[i]) ensures t[i] == ' ' {
        assert t[i] == s[o + i];
      }
    }
  }

  lemma InfixPairs(s: string, t: string, o: nat, bad: (char, char) -> bool)
    requires InfixAt(t, s, o)
    ensures NoPair(s, bad) ==> NoPair(t, bad)
  {
    if NoPair(s, bad) {
      forall i | 0 <= i < |t| - 1 ensures !bad(t[i], t[i + 1]) {
        assert t[i] == s[o + i] && t[i + 1] == s[o + i + 1];
      }
    }
  }

  /** TrimStart is an infix at the number of characters it drops. */
  lemma TrimStartInfix(s: string)
    ensures InfixAt(TrimStart(s), s, |s| - |TrimStart(s)|)
  {
    TrimStartSuffix(s);
  }

  // ---------------------------------------------------------------------------
  // The shape each substitution leaves
  // ---------------------------------------------------------------------------

  lemma {:induction false} CollapsePlain(s: string)
    ensures OnlyPlainSpaces(CollapseSpaces(s))
    decreases |s|
  {
    if s == [] {
    } else if IsSpace(s[0]) {
      var t := TrimStart(s);
      assert |t| < |s|;
      CollapsePlain(t);
      ConsPlain(' ', CollapseSpaces(t));
    } else {
      CollapsePlain(s[1..]);
      ConsPlain(s[0], CollapseSpaces(s[1..]));
    }
  }

  lemma {:induction false} CollapseNoDouble(s: string)
    ensures NoDoubleSpace(CollapseSpaces(s))
    decreases |s|
  {
    if s == [] {
    } else if IsSpace(s[0]) {
      var t := TrimStart(s);
      assert |t| < |s|;
      CollapseNoDouble(t);
      ConsPairs(' ', CollapseSpaces(t), SpaceSpace);
    } else {
      var t := s[1..];
      CollapseNoDouble(t);
      ConsPairs(s[0], CollapseSpaces(t), SpaceSpace);
      if t != [] && IsSpace(t[0]) {
        assert CollapseSpaces(t)[0] == ' ';
      }
    }
  }

  lemma {:induction false} DropAfterNoAfter(s: string)
    ensures NoSpaceAfterHyphen(DropSpaceAfterHyphen(s))
    decreases |s|
  {
    if s != [] {
      var t := if s[0] == '-' then TrimStart(s[1..]) else s[1..];
      DropAfterNoAfter(t);
      ConsPairs(s[0], DropSpaceAfterHyphen(t), HyphenSpace);
    }
  }

  lemma {:induction false} DropAfterPlain(s: string)
    ensures OnlyPlainSpaces(s) ==> OnlyPlainSpaces(DropSpaceAfterHyphen(s))
    decreases |s|
  {
    if s != [] {
      var t := if s[0] == '-' then TrimStart(s[1..]) else s[1..];
      assert s == [s[0]] + s[1..];
      ConsPlain(s[0], s[1..]);
      if s[0] == '-' {
        TrimStartInfix(s[1..]);
        InfixPlain(s[1..], t, |s[1..]| - |t|);
      }
      DropAfterPlain(t);
      ConsPlain(s[0], DropSpaceAfterHyphen(t));
    }
  }

  lemma {:induction false} DropAfterNoDouble(s: string)
    ensures NoDoubleSpace(s) ==> NoDoubleSpace(DropSpaceAfterHyphen(s))
    decreases |s|
  {
    if s != [] && NoDoubleSpace(s) {
      assert s == [s[0]] + s[1..];
      ConsPairs(s[0], s[1..], SpaceSpace);
      if s[0] == '-' {
        var t := TrimStart(s[1..]);
        TrimStartInfix(s[1..]);
        InfixPairs(s[1..], t, |s[1..]| - |t|, SpaceSpace);
        DropAfterNoDouble(t);
        assert DropSpaceAfterHyphen(s) == ['-'] + DropSpaceAfterHyphen(t);
        assert !IsSpace('-');
        ConsPairs('-', DropSpaceAfterHyphen(t), SpaceSpace);
      } else {
        DropAfterNoDouble(s[1..]);
        DropAfterHead(s[1..]);
        assert DropSpaceAfterHyphen(s) == [s[0]] + DropSpaceAfterHyphen(s[1..]);
        ConsPairs(s[0], DropSpaceAfterHyphen(s[1..]), SpaceSpace);
      }
    }
  }

  lemma DropAfterHead(t: string)
    ensures t != [] ==> DropSpaceAfterHyphen(t) != [] && DropSpaceAfterHyphen(t)[0] == t[0]
  {
  }

  lemma {:induction false} DropBeforeNoBefore(s: string)
    ensures NoSpaceBeforeHyphen(DropSpaceBeforeHyphen(s))
    decreases |s|
  {
    if s == [] {
    } else if IsSpace(s[0]) && HyphenAfterRun(s) {
      var u := TrimStart(s)[1..];
      DropBeforeNoBefore(u);
      ConsPairs('-', DropSpaceBeforeHyphen(u), SpaceHyphen);
    } else {
      var t := s[1..];
      DropBeforeNoBefore(t);
      ConsPairs(s[0], DropSpaceBeforeHyphen(t), SpaceHyphen);
      if t != [] && IsSpace(s[0]) {
        assert TrimStart(s) == TrimStart(t);
      }
    }
  }

  lemma {:induction false} DropBeforePlain(s: string)
    ensures OnlyPlainSpaces(s) ==> OnlyPlainSpaces(DropSpaceBeforeHyphen(s))
    decreases |s|
  {
    if s == [] {
    } else if IsSpace(s[0]) && HyphenAfterRun(s) {
      var t := TrimStart(s);
      var u := t[1..];
      TrimStartInfix(s);
      InfixPlain(s, t, |s| - |t|);
      assert t == [t[0]] + u;
      ConsPlain(t[0], u);
      DropBeforePlain(u);
      ConsPlain('-', DropSpaceBeforeHyphen(u));
    } else {
      var t := s[1..];
      assert s == [s[0]] + t;
      ConsPlain(s[0], t);
      DropBeforePlain(t);
      ConsPlain(s[0], DropSpaceBeforeHyphen(t));
    }
  }

  lemma {:induction false} DropBeforeNoDouble(s: string)
    ensures NoDoubleSpace(s) ==> NoDoubleSpace(DropSpaceBeforeHyphen(s))
    decreases |s|
  {
    if s == [] {
    } else if IsSpace(s[0]) && HyphenAfterRun(s) {
      var t := TrimStart(s);
      var u := t[1..];
      TrimStartInfix(s);
      InfixPairs(s, t, |s| - |t|, SpaceSpace);
      assert t == [t[0]] + u;
      ConsPairs(t[0], u, SpaceSpace);
      DropBeforeNoDouble(u);
      ConsPairs('-', DropSpaceBeforeHyphen(u), SpaceSpace);
    } else {
      var t := s[1..];
      assert s == [s[0]] + t;
      ConsPairs(s[0], t, SpaceSpace);
      DropBeforeNoDouble(t);
      ConsPairs(s[0], DropSpaceBeforeHyphen(t), SpaceSpace);
    }
  }

  lemma {:induction false} DropBeforeNoAfter(s: string)
    ensures NoSpaceAfterHyphen(s) ==> NoSpaceAfterHyphen(DropSpaceBeforeHyphen(s))
    decreases |s|
  {
    if s == [] {
    } else if IsSpace(s[0]) && HyphenAfterRun(s) {
      var t := TrimStart(s);
      var u := t[1..];
      TrimStartInfix(s);
      InfixPairs(s, t, |s| - |t|, HyphenSpace);
      assert t == [t[0]] + u;
      ConsPairs(t[0], u, HyphenSpace);
      DropBeforeNoAfter(u);
      ConsPairs('-', DropSpaceBeforeHyphen(u), HyphenSpace);
    } else {
      var t := s[1..];
      assert s == [s[0]] + t;
      ConsPairs(s[0], t, HyphenSpace);
      DropBeforeNoAfter(t);
      ConsPairs(s[0], DropSpaceBeforeHyphen(t), HyphenSpace);
    }
  }

  // ---------------------------------------------------------------------------
  // Properties of _normalize_text
  // ---------------------------------------------------------------------------

  lemma StripShape(c: string)
    requires OnlyPlainSpaces(c) && NoDoubleSpace(c) && NoSpaceAfterHyphen(c) && NoSpaceBeforeHyphen(c)
    ensures IsNormal(Strip(c))
  {
    var r, o := Strip(c), StripOffset(c);
    StripInfix(c);
    assert InfixAt(r, c, o);
    InfixPlain(c, r, o);
    InfixPairs(c, r, o, SpaceSpace);
    InfixPairs(c, r, o, HyphenSpace);
    InfixPairs(c, r, o, SpaceHyphen);
  }

  lemma {:induction false} CollapseFixes(s: string)
    requires OnlyPlainSpaces(s) && NoDoubleSpace(s)
    ensures CollapseSpaces(s) == s
    decreases |s|
  {
    if s != [] {
      var t := s[1..];
      assert s == [s[0]] + t;
      ConsPlain(s[0], t);
      ConsPairs(s[0], t, SpaceSpace);
      CollapseFixes(t);
      if IsSpace(s[0]) {
        assert TrimStart(s) == t by {
          if t != [] { assert !IsSpace(t[0]); }
        }
      }
    }
  }

  lemma {:induction false} DropAfterFixes(s: string)
    requires NoSpaceAfterHyphen(s)
    ensures DropSpaceAfterHyphen(s) == s
    decreases |s|
  {
    if s != [] {
      var t := s[1..];
      assert s == [s[0]] + t;
      ConsPairs(s[0], t, HyphenSpace);
      DropAfterFixes(t);
      if s[0] == '-' {
        assert TrimStart(t) == t by {
          if t != [] { assert !IsSpace(t[0]); }
        }
      }
    }
  }

  lemma {:induction false} DropBeforeFixes(s: string)
    requires NoSpaceBeforeHyphen(s) && NoDoubleSpace(s)
    ensures DropSpaceBeforeHyphen(s) == s
    decreases |s|
  {
    if s != [] {
      var t := s[1..];
      assert s == [s[0]] + t;
      ConsPairs(s[0], t, SpaceHyphen);
      ConsPairs(s[0], t, SpaceSpace);
      DropBeforeFixes(t);
      if IsSpace(s[0]) {
        assert !HyphenAfterRun(s) by {
          assert TrimStart(s) == t by {
            if t != [] { assert !IsSpace(t[0]); }
          }
        }
      }
    }
  }

  /** A string that already has the normal shape is left unchanged. */
  lemma NormalizeFixesNormal(s: string)
    requires IsNormal(s)
    ensures Normalize(s) == s
  {
    CollapseFixes(s);
    DropAfterFixes(s);
    DropBeforeFixes(s);
    assert TrimStart(s) == s;
  }

  /** `_normalize_text` is idempotent. */
  lemma NormalizeIdempotent(s: string)
    ensures Normalize(Normalize(s)) == Normalize(s)
  {
    NormalizeFixesNormal(Normalize(s));
  }

  // ---------------------------------------------------------------------------
  // Normalisation only removes or replaces whitespace
  // ---------------------------------------------------------------------------

  lemma {:induction false} NonSpaceAppend(a: string, b: string)
    ensures NonSpace(a + b) == NonSpace(a) + NonSpace(b)
  {
    if a != [] {
      var h := if IsSpace(a[0]) then [] else [a[0]];
      assert (a + b)[0] == a[0] && (a + b)[1..] == a[1..] + b;
      NonSpaceAppend(a[1..], b);
      calc {
        NonSpace(a + b);
        h + NonSpace(a[1..] + b);
        h + (NonSpace(a[1..]) + NonSpace(b));
        (h + NonSpace(a[1..])) + NonSpace(b);
      }
    } else {
      assert a + b == b;
    }
  }

  lemma {:induction false} NonSpaceTrimStart(s: string)
    ensures NonSpace(TrimStart(s)) == NonSpace(s)
  {
    if |s| > 0 && IsSpace(s[0]) {
      NonSpaceTrimStart(s[1..]);
    }
  }

  lemma {:induction false} NonSpaceTrimEnd(s: string)
    ensures NonSpace(TrimEnd(s)) == NonSpace(s)
  {
    if |s| > 0 && IsSpace(s[|s| - 1]) {
      var p := s[..|s| - 1];
      NonSpaceTrimEnd(p);
      assert s == p + [s[|s| - 1]];
      NonSpaceAppend(p, [s[|s| - 1]]);
    }
  }

  lemma {:induction false} NonSpaceCollapse(s: string)
    ensures NonSpace(CollapseSpaces(s)) == NonSpace(s)
    decreases |s|
  {
    if s == [] {
    } else if IsSpace(s[0]) {
      var t := TrimStart(s);
      assert |t| < |s|;
      NonSpaceCollapse(t);
      NonSpaceTrimStart(s);
      NonSpaceAppend(" ", CollapseSpaces(t));
    } else {
      NonSpaceCollapse(s[1..]);
      NonSpaceAppend([s[0]], CollapseSpaces(s[1..]));
    }
  }

  lemma {:induction false} NonSpaceDropAfter(s: string)
    ensures NonSpace(DropSpaceAfterHyphen(s)) == NonSpace(s)
    decreases |s|
  {
    if s != [] {
      var t := if s[0] == '-' then TrimStart(s[1..]) else s[1..];
      NonSpaceDropAfter(t);
      NonSpaceTrimStart(s[1..]);
      NonSpaceAppend([s[0]], DropSpaceAfterHyphen(t));
    }
  }

  lemma {:induction false} NonSpaceDropBefore(s: string)
    ensures NonSpace(DropSpaceBeforeHyphen(s)) == NonSpace(s)
    decreases |s|
  {
    if s == [] {
    } else if IsSpace(s[0]) && HyphenAfterRun(s) {
      var t := TrimStart(s);
      var u := t[1..];
      NonSpaceDropBefore(u);
      NonSpaceTrimStart(s);
      assert t == "-" + u;
      NonSpaceAppend("-", u);
      NonSpaceAppend("-", DropSpaceBeforeHyphen(u));
    } else {
      NonSpaceDropBefore(s[1..]);
      NonSpaceAppend([s[0]], DropSpaceBeforeHyphen(s[1..]));
    }
  }

  /** `_normalize_text` keeps every non-whitespace character, in order. */
  lemma NormalizeKeepsNonSpace(s: string)
    ensures NonSpace(Normalize(s)) == NonSpace(s)
  {
    var a := CollapseSpaces(s);
    var b := DropSpaceAfterHyphen(a);
    var c := DropSpaceBeforeHyphen(b);
    NonSpaceCollapse(s);
    NonSpaceDropAfter(a);
    NonSpaceDropBefore(b);
    NonSpaceTrimStart(c);
    NonSpaceTrimEnd(TrimStart(c));
  }

  /** Text made only of whitespace normalises to the empty string. */
  lemma NormalizeAllSpace(s: string)
    requires forall k :: 0 <= k < |s| ==> IsSpace(s[k])
    ensures Normalize(s) == ""
  {
    var r := Normalize(s);
    NormalizeKeepsNonSpace(s);
    NonSpaceAllSpace(s);
  }

  lemma {:induction false} NonSpaceAllSpace(s: string)
    requires forall k :: 0 <= k < |s| ==> IsSpace(s[k])
    ensures NonSpace(s) == ""
  {
    if s != [] { NonSpaceAllSpace(s[1..]); }
  }

  // ---------------------------------------------------------------------------
  // _build_label_mapping
  // ---------------------------------------------------------------------------

  /** `{label: column for column, label in sav_labels}` built by assignment in
      order: each assignment overwrites the column, the first keeps the place. */
  function BuildMapping(labels: seq<(string, string)>): (m: ODict<string>)
    ensures m.Valid()
  {
    if labels == [] then Empty()
    else
      var last := labels[|labels| - 1];
      Put(BuildMapping(labels[..|labels| - 1]), last.1, last.0)
  }

  /** Index of the first row carrying `label`. */
  function FirstRow(labels: seq<(string, string)>, lab: string): nat
  {
    if labels == [] || labels[0].1 == lab then 0 else 1 + FirstRow(labels[1..], lab)
  }

  /** The keys of the mapping are exactly the labels. */
  lemma {:induction false} MappingKeys(labels: seq<(string, string)>)
    ensures forall k :: k in BuildMapping(labels).vals <==> exists i :: 0 <= i < |labels| && labels[i].1 == k
  {
    if labels != [] {
      var n := |labels|;
      var p := labels[..n - 1];
      MappingKeys(p);
      var m := BuildMapping(labels);
      forall k ensures k in m.vals <==> exists i :: 0 <= i < n && labels[i].1 == k {
        if k in BuildMapping(p).vals {
          var i :| 0 <= i < |p| && p[i].1 == k;
          assert labels[i].1 == k;
        }
        if exists i :: 0 <= i < n && labels[i].1 == k {
          var i :| 0 <= i < n && labels[i].1 == k;
          if i < n - 1 { assert p[i].1 == k; }
        }
      }
    }
  }

  /** Every label maps to the column of its last row. */
  lemma {:induction false} MappingLastWins(labels: seq<(string, string)>, i: nat)
    requires i < |labels|
    requires forall j :: i < j < |labels| ==> labels[j].1 != labels[i].1
    ensures labels[i].1 in BuildMapping(labels).vals && BuildMapping(labels).vals[labels[i].1] == labels[i].0
  {
    var n := |labels|;
    if i < n - 1 {
      var p := labels[..n - 1];
      assert p[i] == labels[i];
      assert labels[n - 1].1 != labels[i].1;
      MappingLastWins(p, i);
    }
  }

  /** `ks` lists its texts in the order of their first rows in `labels`. */
  ghost predicate InFirstRowOrder(labels: seq<(string, string)>, ks: seq<string>)
  {
    forall a, b :: 0 <= a < b < |ks| ==> FirstRow(labels, ks[a]) < FirstRow(labels, ks[b])
  }

  /** The keys are in the order of the labels' first rows. */
  lemma {:induction false} MappingOrder(labels: seq<(string, string)>)
    ensures InFirstRowOrder(labels, BuildMapping(labels).keys)
  {
    if labels != [] {
      var n := |labels|;
      var p := labels[..n - 1];
      var k := labels[n - 1].1;
      MappingOrder(p);
      MappingKeys(p);
      var mp := BuildMapping(p);
      forall x | x in mp.keys ensures FirstRow(labels, x) == FirstRow(p, x) < n - 1 {
        var i :| 0 <= i < |p| && p[i].1 == x;
        FirstRowPrefix(labels, p, x, i);
      }
      OrderTransfer(labels, p, mp.keys);
      if k !in mp.vals {
        FirstRowLast(labels, p, k);
        OrderAppend(labels, mp.keys, k);
      }
    }
  }

  lemma OrderTransfer(labels: seq<(string, string)>, p: seq<(string, string)>, ks: seq<string>)
    requires InFirstRowOrder(p, ks)
    requires forall x :: x in ks ==> FirstRow(labels, x) == FirstRow(p, x)
    ensures InFirstRowOrder(labels, ks)
  {
    forall a, b | 0 <= a < b < |ks| ensures FirstRow(labels, ks[a]) < FirstRow(labels, ks[b]) {
      assert ks[a] in ks && ks[b] in ks;
    }
  }

  lemma OrderAppend(labels: seq<(string, string)>, ks: seq<string>, k: string)
    requires InFirstRowOrder(labels, ks)
    requires forall x :: x in ks ==> FirstRow(labels, x) < FirstRow(labels, k)
    ensures InFirstRowOrder(labels, ks + [k])
  {
    var ks' := ks + [k];
    forall a, b | 0 <= a < b < |ks'| ensures FirstRow(labels, ks'[a]) < FirstRow(labels, ks'[b]) {
      assert ks'[a] == ks[a] && ks[a] in ks;
      if b < |ks| { assert ks'[b] == ks[b]; }
    }
  }

  lemma {:induction false} FirstRowPrefix(labels: seq<(string, string)>, p: seq<(string, string)>, k: string, i: nat)
    requires |labels| > 0 && p == labels[..|labels| - 1] && i < |p| && p[i].1 == k
    ensures FirstRow(labels, k) == FirstRow(p, k) <= i
  {
    if labels[0].1 != k {
      assert labels[1..][..|labels[1..]| - 1] == p[1..];
      FirstRowPrefix(labels[1..], p[1..], k, i - 1);
    }
  }

  lemma {:induction false} FirstRowLast(labels: seq<(string, string)>, p: seq<(string, string)>, k: string)
    requires |labels| > 0 && p == labels[..|labels| - 1] && labels[|labels| - 1].1 == k
    requires forall i :: 0 <= i < |p| ==> p[i].1 != k
    ensures FirstRow(labels, k) == |p|
  {
    if |p| > 0 {
      assert labels[1..][..|labels[1..]| - 1] == p[1..];
      assert labels[0] == p[0];
      FirstRowLast(labels[1..], p[1..], k);
    }
  }

  /** The dictionary-filling loop of `_build_label_mapping`. */
  method BuildLabelMapping(labels: seq<(string, string)>) returns (m: ODict<string>)
    ensures m == BuildMapping(labels)
  {
    m := Empty();
    for i := 0 to |labels|
      invariant m == BuildMapping(labels[..i])
    {
      assert labels[..i + 1][..i] == labels[..i];
      m := Put(m, labels[i].1, labels[i].0);
    }
    assert labels[..|labels|] == labels;
  }

  // ---------------------------------------------------------------------------
  // _find_column
  // ---------------------------------------------------------------------------

  /** Position of the first text of `ks` whose image under `norm` contains
      `nq`, or `|ks|` when there is none. */
  function FirstMatch(norm: string -> string, ks: seq<string>, nq: string): (i: nat)
    ensures i <= |ks|
    ensures forall j :: 0 <= j < i ==> !Contains(norm(ks[j]), nq)
    ensures i < |ks| ==> Contains(norm(ks[i]), nq)
  {
    if ks == [] || Contains(norm(ks[0]), nq) then 0
    else
      var i := FirstMatch(norm, ks[1..], nq);
      assert forall j :: 1 <= j <= i ==> ks[j] == ks[1..][j - 1];
      1 + i
  }

  /** `_find_column`: the exact label wins; otherwise the first key in
      dictionary order whose normalised text contains the normalised
      question; otherwise no column. */
  function FindColumn(d: ODict<string>, q: string): (r: Option<string>)
    requires d.Valid()
    ensures q in d.vals ==> r == Some(d.vals[q])
    ensures r.Some? ==> exists k :: k in d.vals && d.vals[k] == r.value
  {
    if q in d.vals then Some(d.vals[q])
    else
      var i := FirstMatch(Normalize, d.keys, Normalize(q));
      if i < |d.keys| then Some(d.vals[d.keys[i]]) else None
  }

  /** Without an exact label, `_find_column` finds nothing exactly when no
      normalised key contains the normalised question, and otherwise the
      column of the first key in dictionary order that does. */
  lemma FindColumnSubstring(d: ODict<string>, q: string)
    requires d.Valid() && q !in d.vals
    ensures FindColumn(d, q).None? <==> forall i :: 0 <= i < |d.keys| ==> !Contains(Normalize(d.keys[i]), Normalize(q))
    ensures FindColumn(d, q).Some? ==>
      exists i :: 0 <= i < |d.keys| && Contains(Normalize(d.keys[i]), Normalize(q)) && FindColumn(d, q).value == d.vals[d.keys[i]]
        && forall j :: 0 <= j < i ==> !Contains(Normalize(d.keys[j]), Normalize(q))
  {
    var nq := Normalize(q);
    var i := FirstMatch(Normalize, d.keys, nq);
    assert FindColumn(d, q) == if i < |d.keys| then Some(d.vals[d.keys[i]]) else None;
  }

  /** A whitespace-only question that is not itself a label matches the
      first label of a non-empty table, since "" is contained in every text. */
  lemma BlankQuestionMatchesFirst(d: ODict<string>, q: string)
    requires d.Valid() && q !in d.vals && |d.keys| > 0
    requires forall k :: 0 <= k < |q| ==> IsSpace(q[k])
    ensures FindColumn(d, q) == Some(d.vals[d.keys[0]])
  {
    NormalizeAllSpace(q);
    ContainsEmpty(Normalize(d.keys[0]));
  }

  /** The scan of `_find_column`: the keys are visited in order and the
      first one whose normalised text contains the question stops the loop. */
  method ScanKeys(norm: string -> string, ks: seq<string>, nq: string) returns (i: nat)
    ensures i == FirstMatch(norm, ks, nq)
  {
    i := 0;
    while i < |ks|
      invariant i <= FirstMatch(norm, ks, nq)
    {
      if Contains(norm(ks[i]), nq) {
        return;
      }
      i := i + 1;
    }
  }

  /** `_find_column`, with its early returns. */
  method LookupColumn(d: ODict<string>, q: string) returns (r: Option<string>)
    requires d.Valid()
    ensures r == FindColumn(d, q)
  {
    if q in d.vals {
      return Some(d.vals[q]);
    }
    var i := ScanKeys(Normalize, d.keys, Normalize(q));
    if i < |d.keys| {
      r := Some(d.vals[d.keys[i]]);
    } else {
      r := None;
    }
  }
}
