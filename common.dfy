/** Shared vocabulary: an Option type, the ASCII character classes Python's
    `str` methods use, text helpers (strip, lower-case, containment, split and
    join on a separator) and the integer sort that `sorted()` performs. */
module Common {

  datatype Option<T> = None | Some(value: T)

  // ---------------------------------------------------------------------------
  // Character classes (ASCII range of Python's str.isspace / str.isdigit)
  // ---------------------------------------------------------------------------

  /** Python's `\s` and `str.isspace()` restricted to ASCII: space, \t, \n,
      \v, \f, \r and the four separators \x1c-\x1f. */
  predicate IsSpace(c: char)
  {
    c == ' ' || ('\t' <= c <= '\r') || ('\U{1C}' <= c <= '\U{1F}')
  }

  predicate IsDigit(c: char)
  {
    '0' <= c <= '9'
  }

  /** `str.isdigit()`: non-empty and every character a digit. */
  predicate IsDigits(s: string)
  {
    |s| > 0 && forall i :: 0 <= i < |s| ==> IsDigit(s[i])
  }

  function LowerChar(c: char): (r: char)
    ensures 'A' <= c <= 'Z' ==> r as int == c as int + 32
    ensures !('A' <= c <= 'Z') ==> r == c
  {
    if 'A' <= c <= 'Z' then (c as int + 32) as char else c
  }

  /** `str.lower()` on ASCII text. */
  function Lower(s: string): (r: string)
    ensures |r| == |s|
    ensures forall i :: 0 <= i < |s| ==> r[i] == LowerChar(s[i])
  {
    seq(|s|, i requires 0 <= i < |s| => LowerChar(s[i]))
  }

  /** Python's `needle in hay` on strings. */
  predicate Contains(hay: string, needle: string)
  {
    needle <= hay || (|hay| > 0 && Contains(hay[1..], needle))
  }

  lemma {:induction false} ContainsAt(hay: string, needle: string, i: nat)
    requires i + |needle| <= |hay| && hay[i..i + |needle|] == needle
    ensures Contains(hay, needle)
  {
    if i > 0 {
      assert hay[1..][i - 1..i - 1 + |needle|] == hay[i..i + |needle|];
      ContainsAt(hay[1..], needle, i - 1);
    }
  }

  lemma {:induction false} ContainsWitness(hay: string, needle: string)
    requires Contains(hay, needle)
    ensures exists i :: 0 <= i <= |hay| && needle <= hay[i..]
  {
    if needle <= hay {
      assert hay[0..] == hay;
    } else {
      ContainsWitness(hay[1..], needle);
      var i :| 0 <= i <= |hay[1..]| && needle <= hay[1..][i..];
      assert hay[1..][i..] == hay[i + 1..];
    }
  }

  /** The empty string is contained in every string. */
  lemma ContainsEmpty(hay: string)
    ensures Contains(hay, "")
  {
  }

  // ---------------------------------------------------------------------------
  // str.strip()
  // ---------------------------------------------------------------------------

  function TrimStart(s: string): (r: string)
    ensures |r| <= |s|
    ensures r == [] || !IsSpace(r[0])
    ensures forall k :: 0 <= k < |s| - |r| ==> IsSpace(s[k])
  {
    if |s| > 0 && IsSpace(s[0]) then TrimStart(s[1..]) else s
  }

  function TrimEnd(s: string): (r: string)
    ensures r <= s
    ensures r == [] || !IsSpace(r[|r| - 1])
    ensures forall k :: |r| <= k < |s| ==> IsSpace(s[k])
  {
    if |s| > 0 && IsSpace(s[|s| - 1]) then TrimEnd(s[..|s| - 1]) else s
  }

  /** TrimStart is the suffix after the leading whitespace. */
  lemma {:induction false} TrimStartSuffix(s: string)
    ensures forall k :: 0 <= k < |TrimStart(s)| ==> TrimStart(s)[k] == s[|s| - |TrimStart(s)| + k]
  {
    if |s| > 0 && IsSpace(s[0]) {
      TrimStartSuffix(s[1..]);
    }
  }

  /** Number of leading whitespace characters `str.strip()` drops. */
  function StripOffset(s: string): nat
  {
    |s| - |TrimStart(s)|
  }

  /** Python's `str.strip()`: the infix that drops the leading and trailing
      whitespace, and only that. */
  function Strip(s: string): (r: string)
    ensures r == [] || (!IsSpace(r[0]) && !IsSpace(r[|r| - 1]))
    ensures StripOffset(s) + |r| <= |s|
    ensures forall k :: 0 <= k < StripOffset(s) ==> IsSpace(s[k])
    ensures forall k :: StripOffset(s) + |r| <= k < |s| ==> IsSpace(s[k])
  {
    StripParts(s);
    TrimEnd(TrimStart(s))
  }

  /** `s.strip()` is not empty. */
  predicate NonBlank(s: string)
  {
    Strip(s) != ""
  }

  lemma StripParts(s: string)
    ensures var t := TrimStart(s); var r := TrimEnd(t); var off := |s| - |t|;
            && (r == [] || (!IsSpace(r[0]) && !IsSpace(r[|r| - 1])))
            && off + |r| <= |s|
            && (forall k :: 0 <= k < off ==> IsSpace(s[k]))
            && (forall k :: off + |r| <= k < |s| ==> IsSpace(s[k]))
  {
    var t := TrimStart(s);
    var r := TrimEnd(t);
    var off := |s| - |t|;
    TrimStartSuffix(s);
    forall k | off + |r| <= k < |s| ensures IsSpace(s[k]) {
      assert s[k] == t[k - off];
    }
    if r != [] {
      assert r[0] == t[0];
    }
  }

  /** Strip is the infix between the leading and the trailing whitespace. */
  lemma StripInfix(s: string)
    ensures Strip(s) == s[StripOffset(s)..StripOffset(s) + |Strip(s)|]
    ensures forall k :: 0 <= k < |Strip(s)| ==> Strip(s)[k] == s[StripOffset(s) + k]
  {
    var t := TrimStart(s);
    var r := TrimEnd(t);
    TrimStartSuffix(s);
    assert r == t[..|r|];
  }

  /** Strip keeps every character that is not whitespace. */
  lemma StripKeeps(s: string, k: nat)
    requires k < |s| && !IsSpace(s[k])
    ensures s[k] in Strip(s)
  {
    var r, i := Strip(s), StripOffset(s);
    StripInfix(s);
    assert r[k - i] == s[k];
  }

  /** A string made of whitespace only strips to the empty string. */
  lemma StripAllSpace(s: string)
    requires forall k :: 0 <= k < |s| ==> IsSpace(s[k])
    ensures Strip(s) == ""
  {
    TrimStartSuffix(s);
  }

  /** Concatenation regrouped; stated once so that loops that extend two
      sequences at a time need not rediscover it. */
  lemma AppendAssoc<T>(a: seq<T>, b: seq<T>, c: seq<T>)
    ensures a + b + c == a + (b + c)
  {
  }

  // ---------------------------------------------------------------------------
  // str.split(sep) and sep.join(parts)
  // ---------------------------------------------------------------------------

  /** Index of the first occurrence of `sep` in `s`. */
  function IndexOf(s: string, sep: string): (r: Option<nat>)
    requires |sep| > 0
    ensures r.Some? ==> r.value + |sep| <= |s| && sep <= s[r.value..]
    decreases |s|
  {
    if |s| < |sep| then None
    else if sep <= s then Some(0)
    else
      match IndexOf(s[1..], sep)
      case None => None
      case Some(i) =>
        assert s[1..][i..] == s[i + 1..];
        Some(i + 1)
  }

  /** There is no earlier occurrence, and none at all when IndexOf finds none. */
  lemma {:induction false} IndexOfFirstOccurrence(s: string, sep: string)
    requires |sep| > 0
    ensures IndexOf(s, sep).Some? ==> forall j :: 0 <= j < IndexOf(s, sep).value ==> !(sep <= s[j..])
    ensures IndexOf(s, sep).None? ==> forall j :: 0 <= j <= |s| ==> !(sep <= s[j..])
    decreases |s|
  {
    if |s| < |sep| {
      forall j | 0 <= j <= |s| ensures !(sep <= s[j..]) {
        assert |s[j..]| < |sep|;
      }
    } else if !(sep <= s) {
      IndexOfFirstOccurrence(s[1..], sep);
      var r := IndexOf(s[1..], sep);
      var bound := if r.Some? then r.value + 1 else |s| + 1;
      forall j | 1 <= j < bound ensures !(sep <= s[j..]) {
        assert s[j..] == s[1..][j - 1..];
      }
    }
  }

  /** Python's `s.split(sep)` for a non-empty separator. */
  function Split(s: string, sep: string): (parts: seq<string>)
    requires |sep| > 0
    ensures |parts| > 0
    ensures forall k :: 0 <= k < |parts| ==> !Contains(parts[k], sep)
    decreases |s|
  {
    IndexOfFirstOccurrence(s, sep);
    match IndexOf(s, sep)
    case None =>
      NoSepNotContained(s, sep);
      [s]
    case Some(i) =>
      assert forall j :: 0 <= j <= i ==> !(sep <= s[..i][j..]) by {
        forall j | 0 <= j <= i ensures !(sep <= s[..i][j..]) {
          if j < i { assert s[..i][j..] == s[j..i] && s[j..i] <= s[j..]; }
          if j == i { assert s[..i][j..] == []; }
        }
      }
      NoSepNotContained(s[..i], sep);
      [s[..i]] + Split(s[i + |sep|..], sep)
  }

  lemma {:induction false} NoSepNotContained(s: string, sep: string)
    requires |sep| > 0
    requires forall j :: 0 <= j <= |s| ==> !(sep <= s[j..])
    ensures !Contains(s, sep)
  {
    if Contains(s, sep) {
      ContainsWitness(s, sep);
    }
  }

  /** Python's `sep.join(parts)`. */
  function Join(sep: string, parts: seq<string>): string
  {
    if |parts| == 0 then ""
    else if |parts| == 1 then parts[0]
    else parts[0] + sep + Join(sep, parts[1..])
  }

  /** Joining a list of at least two parts. */
  lemma JoinCons(sep: string, a: string, ps: seq<string>)
    requires |ps| > 0
    ensures Join(sep, [a] + ps) == a + sep + Join(sep, ps)
  {
    assert ([a] + ps)[1..] == ps;
  }

  /** Splitting and joining back again gives the original text. */
  lemma {:induction false} JoinSplit(s: string, sep: string)
    requires |sep| > 0
    ensures Join(sep, Split(s, sep)) == s
    decreases |s|
  {
    match IndexOf(s, sep)
    case None =>
    case Some(i) =>
      var rest := s[i + |sep|..];
      var ps := Split(rest, sep);
      JoinSplit(rest, sep);
      assert Split(s, sep) == [s[..i]] + ps;
      JoinCons(sep, s[..i], ps);
      assert s[i..i + |sep|] == sep;
      assert s == s[..i] + s[i..i + |sep|] + rest;
  }

  // ---------------------------------------------------------------------------
  // sorted() on integers
  // ---------------------------------------------------------------------------

  predicate SortedInts(s: seq<int>)
  {
    forall i, j :: 0 <= i < j < |s| ==> s[i] <= s[j]
  }

  function InsertInt(x: int, s: seq<int>): (r: seq<int>)
    requires SortedInts(s)
    ensures SortedInts(r) && multiset(r) == multiset(s) + multiset{x}
    ensures r[0] == x || (s != [] && r[0] == s[0])
  {
    if s == [] then [x]
    else if x <= s[0] then
      SortedIntsCons(x, s);
      [x] + s
    else
      var t := InsertInt(x, s[1..]);
      assert s == [s[0]] + s[1..];
      assert s[0] <= t[0];
      SortedIntsCons(s[0], t);
      [s[0]] + t
  }

  lemma SortedIntsCons(x: int, s: seq<int>)
    requires SortedInts(s) && (s == [] || x <= s[0])
    ensures SortedInts([x] + s)
  {
    var r := [x] + s;
    forall i, j | 0 <= i < j < |r| ensures r[i] <= r[j] {
      if i == 0 { assert r[j] == s[j - 1]; } else { assert r[i] == s[i - 1] && r[j] == s[j - 1]; }
    }
  }

  /** Python's `sorted()` on a list of integers: ascending, same elements. */
  function SortInts(s: seq<int>): (r: seq<int>)
    ensures SortedInts(r) && multiset(r) == multiset(s)
  {
    if s == [] then []
    else
      assert s == [s[0]] + s[1..];
      InsertInt(s[0], SortInts(s[1..]))
  }

  /** Splitting a join on a separator no part contains gives the parts back. */
  lemma {:induction false} SplitJoin(parts: seq<string>, c: char)
    requires |parts| > 0
    requires forall k :: 0 <= k < |parts| ==> c !in parts[k]
    ensures Split(Join([c], parts), [c]) == parts
  {
    if |parts| == 1 {
      SplitNoSep(parts[0], c);
    } else {
      var rest := parts[1..];
      SplitJoin(rest, c);
      SplitCons(parts[0], c, Join([c], rest));
      assert parts == [parts[0]] + rest;
      JoinCons([c], parts[0], rest);
    }
  }

  lemma {:induction false} IndexOfFirst(a: string, c: char, b: string)
    requires c !in a
    ensures IndexOf(a + [c] + b, [c]) == Some(|a|)
  {
    var s := a + [c] + b;
    if a == [] {
      assert [c] <= s;
    } else {
      assert s[0] == a[0] && !([c] <= s);
      assert s[1..] == a[1..] + [c] + b;
      IndexOfFirst(a[1..], c, b);
    }
  }

  lemma SplitCons(a: string, c: char, b: string)
    requires c !in a
    ensures Split(a + [c] + b, [c]) == [a] + Split(b, [c])
  {
    var s := a + [c] + b;
    IndexOfFirst(a, c, b);
    assert s[..|a|] == a;
    assert s[|a| + 1..] == b;
  }

  lemma SplitNoSep(s: string, c: char)
    requires c !in s
    ensures Split(s, [c]) == [s]
  {
    forall j | 0 <= j <= |s| ensures !([c] <= s[j..]) {
      if j < |s| { assert s[j..][0] == s[j]; }
    }
  }

  // ---------------------------------------------------------------------------
  // str(int)
  // ---------------------------------------------------------------------------

  function DigitChar(d: int): (c: char)
    requires 0 <= d < 10
    ensures IsDigit(c) && c as int - '0' as int == d
  {
    ('0' as int + d) as char
  }

  /** The value of a string of decimal digits. */
  function DigitsValue(s: string): nat
    requires forall k :: 0 <= k < |s| ==> IsDigit(s[k])
  {
    if s == [] then 0
    else
      assert IsDigit(s[|s| - 1]);
      DigitsValue(s[..|s| - 1]) * 10 + (s[|s| - 1] as int - '0' as int)
  }

  /** Decimal notation of a natural number, without leading zeros. */
  function NatToString(n: nat): (s: string)
    ensures IsDigits(s)
    ensures DigitsValue(s) == n
    ensures |s| > 1 ==> s[0] != '0'
    decreases n
  {
    if n < 10 then [DigitChar(n)]
    else
      var p := NatToString(n / 10);
      var s := p + [DigitChar(n % 10)];
      assert s[..|s| - 1] == p;
      s
  }

  /** Python's `str()` on an int: a minus sign for negative values, then the digits. */
  function IntToString(n: int): (s: string)
    ensures |s| > 0
    ensures forall k :: 0 <= k < |s| ==> IsDigit(s[k]) || s[k] == '-'
    ensures n < 0 <==> s[0] == '-'
  {
    if n < 0 then "-" + NatToString(-n) else NatToString(n)
  }

  // ---------------------------------------------------------------------------
  // Filtering by position
  // ---------------------------------------------------------------------------

  /** The positions of the elements of `s` that satisfy `p`, in ascending order. */
  function Positions<T>(s: seq<T>, p: T -> bool): (idx: seq<nat>)
    ensures forall k :: 0 <= k < |idx| ==> idx[k] < |s| && p(s[idx[k]])
    ensures forall a, b :: 0 <= a < b < |idx| ==> idx[a] < idx[b]
  {
    if s == [] then []
    else
      var n := |s| - 1;
      var r := Positions(s[..n], p);
      assert forall k :: 0 <= k < |r| ==> s[..n][r[k]] == s[r[k]];
      if p(s[n]) then r + [n] else r
  }

  /** Every position whose element satisfies `p` is listed. */
  lemma {:induction false} PositionsComplete<T>(s: seq<T>, p: T -> bool)
    ensures forall i :: 0 <= i < |s| && p(s[i]) ==> i in Positions(s, p)
  {
    if s != [] {
      var n := |s| - 1;
      PositionsComplete(s[..n], p);
      assert forall i :: 0 <= i < n ==> s[..n][i] == s[i];
    }
  }

  /** The images under `f` of the elements that satisfy `keep`, in order. */
  function FilterMap<A, B>(s: seq<A>, keep: A -> bool, f: A -> B): (r: seq<B>)
    ensures |r| <= |s|
  {
    if s == [] then []
    else
      var n := |s| - 1;
      FilterMap(s[..n], keep, f) + (if keep(s[n]) then [f(s[n])] else [])
  }

  lemma FilterMapSnoc<A, B>(s: seq<A>, i: nat, keep: A -> bool, f: A -> B)
    requires i < |s|
    ensures FilterMap(s[..i + 1], keep, f) == FilterMap(s[..i], keep, f) + (if keep(s[i]) then [f(s[i])] else [])
  {
    assert s[..i + 1][..i] == s[..i];
  }

  lemma {:induction false} FilterMapAppend<A, B>(a: seq<A>, b: seq<A>, keep: A -> bool, f: A -> B)
    ensures FilterMap(a + b, keep, f) == FilterMap(a, keep, f) + FilterMap(b, keep, f)
    decreases |b|
  {
    if b == [] {
      assert a + b == a;
    } else {
      var n := |b| - 1;
      var tail := if keep(b[n]) then [f(b[n])] else [];
      assert (a + b)[..|a| + n] == a + b[..n];
      assert (a + b)[|a| + n] == b[n];
      FilterMapAppend(a, b[..n], keep, f);
      AppendAssoc(FilterMap(a, keep, f), FilterMap(b[..n], keep, f), tail);
    }
  }

  /** The k-th result is the image of the k-th element that satisfies `keep`. */
  lemma {:induction false} FilterMapPositions<A, B>(s: seq<A>, keep: A -> bool, f: A -> B)
    ensures |FilterMap(s, keep, f)| == |Positions(s, keep)|
    ensures forall k :: 0 <= k < |Positions(s, keep)| ==> FilterMap(s, keep, f)[k] == f(s[Positions(s, keep)[k]])
  {
    if s != [] {
      var n := |s| - 1;
      FilterMapPositions(s[..n], keep, f);
      var idx := Positions(s[..n], keep);
      forall k | 0 <= k < |idx| ensures s[..n][idx[k]] == s[idx[k]] { }
    }
  }

  /** An element is in the result exactly when it is the image of a kept one. */
  lemma FilterMapMembers<A, B>(s: seq<A>, keep: A -> bool, f: A -> B, y: B)
    ensures y in FilterMap(s, keep, f) <==> exists i :: 0 <= i < |s| && keep(s[i]) && f(s[i]) == y
  {
    var pos := Positions(s, keep);
    var r := FilterMap(s, keep, f);
    FilterMapPositions(s, keep, f);
    PositionsComplete(s, keep);
    if y in r {
      var k :| 0 <= k < |r| && r[k] == y;
      assert keep(s[pos[k]]) && f(s[pos[k]]) == y;
    }
    if exists i :: 0 <= i < |s| && keep(s[i]) && f(s[i]) == y {
      var i :| 0 <= i < |s| && keep(s[i]) && f(s[i]) == y;
      var k :| 0 <= k < |pos| && pos[k] == i;
      assert r[k] == y;
    }
  }

  /** Distinct elements under an injective map stay distinct. */
  lemma FilterMapDistinct<A, B>(s: seq<A>, keep: A -> bool, f: A -> B)
    requires forall a, b :: 0 <= a < b < |s| ==> s[a] != s[b]
    requires forall x, y :: f(x) == f(y) ==> x == y
    ensures var r := FilterMap(s, keep, f);
            forall a, b :: 0 <= a < b < |r| ==> r[a] != r[b]
  {
    var pos := Positions(s, keep);
    FilterMapPositions(s, keep, f);
    forall a, b | 0 <= a < b < |pos| ensures f(s[pos[a]]) != f(s[pos[b]]) {
      assert pos[a] < pos[b];
    }
  }

  lemma SetHasElement(s: set<int>)
    ensures s != {} ==> exists y :: y in s
  {
    if forall y: int :: y !in s {
      assert s == {};
    }
  }

  /** The smallest element of a non-empty set of codes. */
  function MinCode(s: set<int>): (m: int)
    requires |s| > 0
    ensures m in s && forall x :: x in s ==> m <= x
  {
    MinExists(s);
    var m :| m in s && forall x :: x in s ==> m <= x; m
  }

  lemma MinExists(s: set<int>)
    requires |s| > 0
    ensures exists m :: m in s && forall x :: x in s ==> m <= x
    decreases |s|
  {
    SetHasElement(s);
    var y: int :| y in s;
    var rest := s - {y};
    if |rest| == 0 {
      assert rest == {};
      forall x | x in s ensures y <= x {
        assert x !in rest;
      }
    } else {
      MinExists(rest);
      var m :| m in rest && forall x :: x in rest ==> m <= x;
      var w := if y < m then y else m;
      forall x | x in s ensures w <= x {
        if x != y { assert x in rest; }
      }
      assert w in s;
    }
  }

  /** A set of codes, smallest first. */
  function Ascending(s: set<int>): (ks: seq<int>)
    ensures forall k :: k in s <==> k in ks
    ensures forall i, j :: 0 <= i < j < |ks| ==> ks[i] < ks[j]
    decreases |s|
  {
    if s == {} then []
    else
      var k := MinCode(s);
      [k] + Ascending(s - {k})
  }
}
